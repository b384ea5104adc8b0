# PDF annotation tool: annotation table and export plan

This project is a Dafny model of the two components of the browser PDF annotation tool
that have logic of their own. Both live in `app/components`.

- **The viewer's annotation state** (`PDFViewer.tsx`). The state is an ordered list of
  annotation records (highlight, underline, comment, signature), the selected text, the
  current page, the page count and a side table of drag handles (`nodeRefs`) keyed by
  annotation id. It is modelled as the class `Viewer.PdfViewer`. Its fields are a `seq`,
  strings, numbers and a `set<string>` of handle keys. Each event handler is a method that
  states the whole new state.
  - The list transforms the handlers use (map-by-id for move and resize, filter-by-id for
    removal, the two page filters, find-first-by-id, `Math.round` and the page-input clamp)
    are pure functions in `AnnotationModel`, with lemmas about them. The two appends are
    written in `AddAnnotation` and `AddSignature`; `AnnotationModel` has lemmas about
    appending a record.
  - The selection handler's `trim` is `JsText.Trim`, over the whitespace set of ECMA-262.
- **The export handler** (`ExportButton.tsx`). It is modelled as the method
  `Export.HandleExport`. The jsPDF document is the log of the calls made on it, and the
  loop over the annotations appends to that log. The method's contract ties the log to the
  function `Export.DrawLoop`. The lemmas about `DrawLoop` and the reference definition
  `Export.Emissions` state what is drawn and in what order: the base image first, one
  image per signature with an image, one text per comment with text, and `save` only when
  the loop ran to the end and nothing threw.

Modelling choices:
- Inputs that come from the browser are parameters: the selection text, its range count,
  the comment prompt's answer, the container's bounding rectangle, drag coordinates and the
  parsed page input. So are the results of html2canvas and of jsPDF's image decoding.
- Ids are parameters too, because `generateId` is random. Nothing claims they are unique.
  `AppendFreshKeepsUnique` shows that a fresh id keeps a unique list unique.
- Coordinates and sizes are `real`. `Math.round` is `floor(v + 1/2)`. Pixel sizes of the
  captured canvas are `nat`. NaN is modelled only where the code tests for it (the parsed
  page number, as `None`).
- The object invariant `PdfViewer.Valid()` has three parts. Every width is positive, which
  the resize ratio needs. Every signature id has a drag handle. The page is at least 1.
- A comment record has no comment body. The prompt's answer only becomes the `title` of the
  wrapping span (`PDFViewer.tsx:97`), so export writes the record's selected text
  (`ExportButton.tsx:61`).
- A new signature stores `y` as `-(containerHeight / 3)`, or `-200` without a container
  (`PDFViewer.tsx:148-163`). The model stores the same negated value.
- A resize takes the current height-to-width ratio of the first record with the id
  (`PDFViewer.tsx:186-190`) and gives every record with that id the new size (192-196).
- Center on Page, Remove and the size slider exist only on signature rows
  (`PDFViewer.tsx:302-343`). The model's `CenterOnPage`, `Remove` and `UpdateSignatureSize`
  accept any id, which covers those uses, and each acts on every record that shares the id.

## Model

| member | source | states |
|---|---|---|
| JsText.TrimStart | app/components/PDFViewer.tsx:69-70 | the result is the longest suffix not starting with whitespace; all dropped characters are whitespace |
| JsText.TrimEnd | app/components/PDFViewer.tsx:69-70 | the result is the longest prefix not ending with whitespace; all dropped characters are whitespace |
| JsText.Trim | app/components/PDFViewer.tsx:69-70 | the trimmed text is no longer than the input, and neither starts nor ends with whitespace |
| JsText.TrimSlice | app/components/PDFViewer.tsx:69-70 | trim keeps one contiguous slice, with blank text before and after it and no whitespace at its ends |
| JsText.TrimEmptyIffBlank | app/components/PDFViewer.tsx:69 | a selection trims to "" exactly when it is all whitespace (both directions) |
| JsText.TrimIdempotent | app/components/PDFViewer.tsx:70 | trimming the stored selection again changes nothing |
| AnnotationModel.Filter | app/components/PDFViewer.tsx:296 | an element is in the filtered list exactly when it is in the list and passes the test; never longer |
| AnnotationModel.FilterAppend | app/components/PDFViewer.tsx:334 | filtering distributes over concatenation, so the kept elements stay in their order |
| AnnotationModel.FilterAll | app/components/PDFViewer.tsx:334 | a filter that every element passes returns the list unchanged |
| AnnotationModel.OnPage | app/components/PDFViewer.tsx:295-296 | the listed annotations are exactly those whose page is the current page |
| AnnotationModel.SignaturesOnPage | app/components/PDFViewer.tsx:249-250 | the drawn overlays are exactly the signatures whose page is the current page |
| AnnotationModel.SignaturesOnPageSnoc | app/components/PDFViewer.tsx:249-250 | extending the list by one record extends the drawn overlays by that record exactly when it is a signature of the page |
| AnnotationModel.DrawnAreListed | app/components/PDFViewer.tsx:249-255 | every drawn overlay is also listed, and its id is a signature id of the whole list |
| AnnotationModel.OverlayHandles | app/components/PDFViewer.tsx:252-255 | after drawing, every overlay has a handle; nothing is added when every signature already had one |
| AnnotationModel.SignatureIdsSnoc | app/components/PDFViewer.tsx:136-140 | appending a record adds its id to the signature ids exactly when it is a signature |
| AnnotationModel.AppendFreshKeepsUnique | app/components/PDFViewer.tsx:53-55 | appending a record with an unused id keeps ids unique (freshness is a precondition, not proved) |
| AnnotationModel.RemoveById | app/components/PDFViewer.tsx:331-337 | the kept records are exactly those with a different id; the id leaves the set of ids and signature ids; widths stay positive |
| AnnotationModel.RemoveUnknownId | app/components/PDFViewer.tsx:334 | removing an id not in the list leaves the list unchanged |
| AnnotationModel.RemoveIdempotent | app/components/PDFViewer.tsx:331-337 | removing the same id twice gives the same list as removing it once |
| AnnotationModel.RemoveAppend | app/components/PDFViewer.tsx:334 | removal distributes over concatenation, so the survivors keep their original order |
| AnnotationModel.RemoveOneOfTwo | app/components/PDFViewer.tsx:334 | of two records with distinct ids, removing one leaves exactly the other, unchanged |
| AnnotationModel.UpdateById | app/components/PDFViewer.tsx:178-180 | the id-matched map keeps the list length |
| AnnotationModel.UpdateByIdAt | app/components/PDFViewer.tsx:178-180 | at every index, the record is transformed when its id matches and is the same record otherwise |
| AnnotationModel.UpdateUnknownId | app/components/PDFViewer.tsx:178-180 | an update with an id not in the list leaves the list unchanged |
| AnnotationModel.MoveById | app/components/PDFViewer.tsx:176-182 | moving keeps the list length |
| AnnotationModel.MoveByIdAt | app/components/PDFViewer.tsx:177-181 | a move changes only x and y, and only of records with the id; every other field and record is untouched |
| AnnotationModel.MoveUnknownId | app/components/PDFViewer.tsx:176-182 | moving an unknown id does nothing |
| AnnotationModel.MoveTwice | app/components/PDFViewer.tsx:176-182 | a second move of the same id overrides the first |
| AnnotationModel.ResizeById | app/components/PDFViewer.tsx:192-196 | resizing keeps the list length |
| AnnotationModel.ResizeByIdAt | app/components/PDFViewer.tsx:192-196 | a resize changes only width and height, and only of records with the id |
| AnnotationModel.UpdatesKeepInvariant | app/components/PDFViewer.tsx:176-197 | move and resize keep the signature ids; widths stay positive (for a resize, when the new width is positive) |
| AnnotationModel.SameShapeSameIds | app/components/PDFViewer.tsx:178-180 | two lists that agree index by index on id and kind have the same signature ids |
| AnnotationModel.FindById | app/components/PDFViewer.tsx:186-187 | the result exists exactly when the id is in the list, and it is the first record with that id |
| AnnotationModel.Round | app/components/PDFViewer.tsx:190 | the rounded value lies in (v - 1/2, v + 1/2] |
| AnnotationModel.ResizedHeight | app/components/PDFViewer.tsx:189-190 | the new height is within 1/2 of the new width times the record's height-to-width ratio |
| AnnotationModel.ResizeDefaultTo300 | app/components/PDFViewer.tsx:184-197 | a 150 by 100 signature resized to width 300 gets height 200 |
| AnnotationModel.ClampPage | app/components/PDFViewer.tsx:224 | the page is at least 1 and at most the page count (1 when the count is unknown or 0); NaN, 0 or anything up to 1 gives 1; a number within range is kept; a number at or above a known page count gives the page count |
| Viewer.PdfViewer.constructor | app/components/PDFViewer.tsx:34-47 | the state starts empty: no page count, no annotations, no selected text, pad closed, page 1, no handles |
| Viewer.PdfViewer.DocumentLoaded | app/components/PDFViewer.tsx:57-59 | the page count is stored |
| Viewer.PdfViewer.HandleTextSelection | app/components/PDFViewer.tsx:67-76 | a blank or absent selection leaves the selected text unchanged; otherwise it becomes the trimmed selection, which is not empty |
| Viewer.PdfViewer.AddAnnotation | app/components/PDFViewer.tsx:78-123 | no change without selected text, without a range, or for a comment whose prompt gave nothing; otherwise exactly one record is appended (given kind and id, the selected text, x=0, y=0, 150 by 100, current page), earlier records stay, and the selected text is cleared |
| Viewer.PdfViewer.OpenSignaturePad | app/components/PDFViewer.tsx:209-210 | the signature pad is shown |
| Viewer.PdfViewer.CloseSignaturePad | app/components/PDFViewer.tsx:356 | the signature pad is hidden and nothing else changes |
| Viewer.PdfViewer.AddSignature | app/components/PDFViewer.tsx:143-174 | exactly one signature record is appended: 150 by 100 on the current page; centred horizontally with y = -(H/3) when there is a container, else at (100, -200); the id gains a handle; the pad closes |
| Viewer.PdfViewer.UpdateSignaturePosition | app/components/PDFViewer.tsx:176-182 | the list becomes the id-matched move; an unknown id changes nothing |
| Viewer.PdfViewer.UpdateSignatureSize | app/components/PDFViewer.tsx:184-197 | an unknown id changes nothing; otherwise the records with the id get the new width and the height computed from the first such record's ratio |
| Viewer.PdfViewer.CenterOnPage | app/components/PDFViewer.tsx:322-326 | with a container, the records with the clicked record's id move to x = W/2 - width/2, y = 100; without one, nothing changes |
| Viewer.PdfViewer.Remove | app/components/PDFViewer.tsx:331-337 | the list becomes the records with a different id, and the id's handle is deleted in the same step |
| Viewer.PdfViewer.PageInput | app/components/PDFViewer.tsx:224 | the current page becomes the clamped parsed input |
| Viewer.PdfViewer.Listed | app/components/PDFViewer.tsx:295-296 | an annotation is listed exactly when it is in the list and on the current page |
| Viewer.PdfViewer.AddHandles | app/components/PDFViewer.tsx:136-140 | the handle table gains exactly the signature ids of the given records |
| Viewer.PdfViewer.SyncRefs | app/components/PDFViewer.tsx:134-141 | the handle table gains exactly the signature ids; with the invariant in force it is unchanged; it restores the invariant whenever widths are positive and the page is at least 1 |
| Viewer.PdfViewer.RenderSignatureOverlays | app/components/PDFViewer.tsx:249-255 | the drawn overlays are the current page's signatures in list order; each has a handle afterwards; handles are added only for drawn ids, and none when all signatures had one, so the invariant is kept |
| Export.Or | app/components/ExportButton.tsx:51-54 | a defaulted number is either the value or the default, is the value when that is not zero, and is zero only when both are |
| Export.BaseImage | app/components/ExportButton.tsx:39-43 | the capture is drawn as PNG at the top left, as wide as the page, with height times capture width equal to capture height times page width |
| Export.BaseImageKeepsAspect | app/components/ExportButton.tsx:39-43 | the drawn height over width equals the capture's height over width |
| Export.SignatureDraw | app/components/ExportButton.tsx:47-56 | a signature with an image makes one PNG image call with its data URL; non-zero fields (a negative y too) are kept; zero fields become 50, 100, 40, 30 |
| Export.CommentDraw | app/components/ExportButton.tsx:58-62 | a comment with text sets 10-point Helvetica and writes its text at x, y (10 for a zero coordinate); an empty comment text makes no call |
| Export.Emitted | app/components/ExportButton.tsx:47-62 | one annotation makes no call exactly when it draws neither an image nor a text; otherwise one call for its image and three for its text; never a save |
| Export.DrawLoop | app/components/ExportButton.tsx:46-63 | the loop runs to the end exactly when no annotation's image fails to decode |
| Export.EmissionsAppend | app/components/ExportButton.tsx:46-63 | the calls of a concatenated list are the calls of the first part followed by those of the second: list order |
| Export.DrawLoopSpec | app/components/ExportButton.tsx:46-63 | when the loop completes it has made every annotation's calls in list order; it never saves |
| Export.DrawLoopStopped | app/components/ExportButton.tsx:45-71 | once an addImage call has thrown, the remaining annotations add nothing |
| Export.EmissionsSilent | app/components/ExportButton.tsx:46-63 | highlights, underlines, signatures without an image and comments without text make no calls |
| Export.DrawsAppend | app/components/ExportButton.tsx:46-63 | image calls, text calls and the presence of a save add up over concatenation |
| Export.EmissionCounts | app/components/ExportButton.tsx:46-63 | one image call per signature with an image, one text call per comment with text, no save |
| Export.DrawAnnotations | app/components/ExportButton.tsx:46-63 | the document log gains exactly the loop's calls, and the loop reports whether it ran to the end |
| Export.HandleExport | app/components/ExportButton.tsx:24-72 | no container: alert, no calls; capture failure: failure, no calls; otherwise the base image first, then the loop's calls, then save exactly when the loop completed and the save succeeds; the export succeeds exactly when the container is mounted, captured, every image decodes and the save succeeds |

## Left out

- DOM text wrapping (`getSelection`, `extractContents`, `insertNode`, span styling): DOM mutation outside the state. Only the guards and the append are modelled; the selection is its text and range count.
- `prompt()`, `alert`, `console.log`: browser I/O. The prompt's answer is a parameter; the alert is the returned `Export.Outcome`.
- `generateId` and `Math.random`: ids are parameters, and their freshness is a precondition wherever it is needed.
- react-pdf rendering, `onPageRenderSuccess` and `documentDimensions` (written but never read), the worker setup, and the object-URL effect (lines 125-131): library and resource plumbing. Only the page count that `onDocumentLoadSuccess` stores is kept.
- Draggable's `bounds="parent"` and 5-unit grid: the library enforces them. Drag coordinates are arbitrary inputs.
- The `color` and `commentText` fields of the record type: no code ever sets them.
- IEEE floating point: numbers are exact `real`s. NaN and Infinity are not modelled, except for the parsed page number's NaN.
- Viewer.PdfViewer.UpdateSignatureSize: requires a positive width. The slider supplies 50 to 500, and the zero-width division (Infinity in JavaScript) is outside the model.
- Export.HandleExport: html2canvas rasterisation, jsPDF's page geometry and image handling, and `getImageProperties` are reduced to a captured pixel size, the A4 width constant, a `decodes` predicate and a `saves` flag for `pdf.save`. `Captured` is this abstraction: html2canvas delivered a canvas, and it has a non-zero width and height; a capture with zero width or height is treated as a throw, and the base image's `addImage` on a usable capture as never throwing. `setFont`, `setFontSize` and `text` are treated as never throwing: they always get the fixed font, size 10 and a non-empty string.
- Ref identity: `nodeRefs` is the set of ids that have a handle, not the handle objects. The keep-if-present checks (lines 137 and 253) and the unconditional assignment at line 170 therefore look the same in the model; with a repeated id, line 170 replaces an existing ref object, which the model does not show.
- React batching and stale closures, such as line 186 reading `annotations` instead of `prev`: handlers are sequential state transitions.
- The async `await` of the capture: export is one sequential step. Re-entrant exports are not modelled.
- SignatureCanvas.tsx, DocumentUploader.tsx, AnnotationToolbar.tsx and page.tsx: UI wiring and library wrappers. The signature pad's output is the `dataUrl` parameter of `AddSignature`.
- `pdf-lib`: imported but unused.
