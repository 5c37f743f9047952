# DP maker compositing and interaction model

A Dafny model of the core of a single-page profile-picture ("DP") maker.
The app draws a user's photo behind a decorative frame. The photo shows only
where the frame is transparent. The user pans it by dragging and zooms it
with a slider, then exports the result with a logo watermark. The model
covers the logic of `app.js` that sits between the browser's canvas calls:

- `numeric.dfy`: `clamp` and `Math.round` on exact numbers; the `byte` type of RGBA buffers.
- `hole_mask.dfy`: `buildHoleMaskAndBBox`. One loop over the frame's RGBA bytes writes the
  inverted-alpha mask into a new buffer and scans for the box of the pixels
  whose hole opacity exceeds 5. The box is then padded and clamped. The same mask loop is
  repeated at export size in `drawExport`. The loop is proved against a
  recursive specification of the scan (`ScanPixels`, `HoleBBox`).
- `placement.dfy`: `fitToHole` (cover-fit zoom clamped to the slider, photo
  centred on the hole box), the preview transform of `drawPhotoMasked` and the
  export transform of `drawExport`.
- `watermark.dfy`: where `drawExport` puts the logo in "download" and "share" mode.
- `drag.dfy`: the pointer handlers as a state machine over events.
- `frame_list.dfy`: the built-in and custom frame list, its load/save from browser storage,
  the upload update and `selectFrame`'s lookup.
- `editor.dfy`: a `Session` class holding what `app.js` keeps in module-level
  variables. Its methods are the event handlers. Each is specified by the
  functions above.

Behaviour of `app.js` the model keeps as written:

- The hole box is not confined to the canvas. Its width is `maxX − minX + 2·pad`, with no
  `+ 1`, and `x + w` is never clamped. So with a positive pad the right and bottom edges can pass
  the canvas by up to pad − 1 pixels; with pad 0 they stay inside it (`BoxCanOverhangCanvas`,
  `HoleBBoxEdgeBound`).
- When the clamp of `x` (or `y`) at 0 cuts the left (or top) pad short, the width (or height) is
  not reduced to match. The box then reaches up to 2·pad past the far hole column (or row): one pad
  plus whatever part of the left (or top) pad the clamp cut off, and exactly 2·pad when the hole
  touches column (or row) 0 (`ClampedPadWidensFarSide`). The clamp of the width (or height) at the
  canvas size can shorten this further.
- On a canvas under 50 px the pad is 0. When the hole spans more than one column, the box then
  leaves out the right-most hole column (`UnpaddedBoxMissesLastColumn`), and when it spans more than
  one row, the bottom hole row. A hole within a single column (or row) is kept, because the width
  (or height) is clamped to at least 1 (`SingleColumnHoleIsKept`).
- The zoom slider's handler stores the slider value without clamping it (`Session.SetZoom`).
  Only a fit clamps the zoom.
- The export leaves the stored zoom and offsets unchanged. Its draw transform multiplies the
  offsets and the zoom by `size / previewWidth` horizontally and `size / previewHeight` vertically,
  so the export is the preview resized (`ExportScalesPreview`).

## Model

| member | source | states |
|---|---|---|
| Numeric.Clamp | app.js:91-93 | the result lies in [lo, hi] when lo ≤ hi; it is v inside the range, lo below it and hi above it; lo when hi < lo |
| Numeric.Round | app.js:341-342 | `Math.round`: the integer within half a unit of x, with halves rounded up |
| HoleMask.HoleAlpha | app.js:176-177 | the mask's opacity and the frame's alpha add up to 255 |
| HoleMask.MaskAtPixel | app.js:175-178 | for every pixel of the mask: r = g = b = 255 and a = 255 − frame alpha |
| HoleMask.Widen | app.js:184-187 | the widened box is the smallest one holding both the old box and the new hole pixel: it contains the pixel, contains the old box, and each side is the old side or the pixel's column or row |
| HoleMask.ScanPixels | app.js:172-189 | a scan that has found no hole pixel still holds its start values (w, h, 0, 0) |
| HoleMask.ScanAnyIffHole | app.js:173-189 | `any` is set exactly when some visited pixel has hole opacity above 5 |
| HoleMask.ScanCoversHoles | app.js:180-188 | every visited hole pixel's column lies in [minX, maxX] and its row in [minY, maxY] |
| HoleMask.ScanIsTight | app.js:184-187 | each of minX, maxX, minY, maxY is the column or row of some hole pixel |
| HoleMask.ScanInCanvas | app.js:182-187 | a scan that found a hole has 0 ≤ minX ≤ maxX < w and 0 ≤ minY ≤ maxY < h |
| HoleMask.Pad | app.js:195 | the pad is 1% of the shorter side, rounded; it is non-negative, and positive exactly when the shorter side is at least 50 |
| HoleMask.PaddedBox | app.js:193-204 | with no hole the whole canvas; otherwise a box inside [0, w] × [0, h] of width and height at least 1, starting at or before the scanned box but at most one pad before it, no wider (higher) than the scanned extent plus two pads (at least 1), and, when the pad is at least 1, reaching past its right and bottom sides |
| HoleMask.HoleBBox | app.js:193-204 | with no hole pixel the box is the whole canvas; otherwise x ∈ [0, w], y ∈ [0, h], width ∈ [1, w], height ∈ [1, h] |
| HoleMask.HoleBBoxCoversHoles | app.js:193-201 | when the shorter side is at least 50 px, every hole pixel lies inside [x, x + w) × [y, y + h) |
| HoleMask.UnpaddedBoxMissesLastColumn | app.js:199 | on a 3 × 1 canvas with holes at both ends, the box stops before the right-hand hole pixel |
| HoleMask.SingleColumnHoleIsKept | app.js:199 | on a 3 × 1 canvas whose only hole pixel is the middle one, the box is exactly that pixel, since the width is clamped to at least 1 |
| HoleMask.ScanSingleHole | app.js:172-189 | the scan of a buffer with one hole pixel is the one-pixel box at that pixel |
| HoleMask.HoleBBoxEdgeBound | app.js:196-201 | with a positive pad the box's right and bottom edges lie at most pad − 1 beyond the canvas; with pad 0 they lie inside it |
| HoleMask.ClampedPadWidensFarSide | app.js:196-201 | a scan over columns 0 .. 99 and rows 50 .. 60 of a 200 × 200 canvas gives the box (0, 48, 103, 14), whose right edge is two pads past column 99 |
| HoleMask.BoxCanOverhangCanvas | app.js:196-201 | a 200 × 200 frame whose only hole pixel is the corner gets a box reaching column 201 |
| HoleMask.BuildHoleMaskAndBBox | app.js:152-205 | the loop writes the hole mask of the frame buffer and yields the padded, clamped hole box |
| HoleMask.BuildMask | app.js:299-312 | the export-size loop writes the hole mask of the export-size frame buffer |
| Placement.CoverZoom | app.js:218-221 | the zoom makes the photo at least as wide and as high as the box, and exactly as wide or as high |
| Placement.CoverZoomIsLeast | app.js:218-221 | no smaller zoom covers the box |
| Placement.FitToBox | app.js:207-228 | with no photo the placement is unchanged; otherwise the zoom is the cover zoom clamped to [zmin, zmax] (so at least zmin, and within [zmin, zmax] when zmin ≤ zmax) and the offset is the box's centre |
| Placement.FitIdempotent | app.js:207-228 | fitting twice gives the same placement as fitting once |
| Placement.FitExample | app.js:207-228 | an 840 × 840 box at (120, 120) and an 800 × 600 photo give zoom 1.4 and offset (540, 540) |
| Placement.PreviewAffine | app.js:249-253 | the photo's centre is drawn at (offsetX, offsetY), and its edges at zoom · width/2 and zoom · height/2 either side of it |
| Placement.FitCentresPhoto | app.js:226-228 | after a fit, the preview transform draws the photo's centre at the box's centre |
| Placement.FitTouchesBox | app.js:218-228 | unless the slider clamps the zoom, the fitted photo's left or top edge lies exactly on the box's, so the photo is no larger than needed |
| Placement.FitCoversBox | app.js:218-228 | unless the slider maximum caps the zoom, the fitted photo's edges lie on or outside the hole box |
| Placement.ExportAffine | app.js:319-325 | the photo's centre is drawn at the offsets times size/prevW and size/prevH, and its drawn width and height are zoom · size/prevW · width and zoom · size/prevH · height |
| Placement.ExportScalesPreview | app.js:318-325 | every photo point's export position is its preview position times size/prevW horizontally and size/prevH vertically |
| Placement.SquareExportIsIsotropic | app.js:319-324 | on a square preview, the export displacement between any two photo points is the preview displacement times the same factor size/prev on both axes, so the aspect ratio is kept |
| Watermark.Margin | app.js:341 | the margin is 4.5% of the size, rounded, and not negative |
| Watermark.LogoSize | app.js:342 | the logo's side is 14% of the size, rounded, and not negative |
| Watermark.WatermarkRect | app.js:338-353 | a logo is drawn exactly when the logo has loaded and the mode is "download" or "share"; its side is the logo size, and it lies inside the export canvas |
| Watermark.DownloadLogoInCorner | app.js:344-346 | in "download" mode the logo sits at (margin, margin) |
| Watermark.ShareLogoCentred | app.js:347-351 | in "share" mode the logo is centred horizontally to the pixel, and its centre lies within half a pixel of 62% of the height |
| Drag.Handle | app.js:367-393 | down without a photo changes nothing; down with one starts a drag at its point; a move while dragging keeps offset − last point and records the new point; any other move changes nothing; up and cancel end the drag and keep the last point and the offset |
| Drag.MovesKeepGrip | app.js:376-390 | a run of moves while dragging keeps offset − last point and ends at the last move's point |
| Drag.DragPansByDisplacement | app.js:367-390 | down at p0, then moves ending at pn, pan the photo by exactly pn − p0 |
| Drag.NoPhotoNoPan | app.js:367-377 | without a photo no event sequence starts a drag or moves the photo |
| Drag.ReleasedMovesDoNothing | app.js:376-393 | after up or cancel, moves change nothing |
| Drag.DragTwiceExample | app.js:376-390 | dragging by (10, −5) twice pans by (20, −10) |
| FrameList.KeepUsable | app.js:67 | exactly the stored frame records with both a source and a thumbnail are kept |
| FrameList.KeepUsableAppend | app.js:67 | the filter keeps the stored order |
| FrameList.FirstSix | app.js:75 | `slice(0, 6)`: the first min(n, 6) elements, unchanged |
| FrameList.LoadCustomFrames | app.js:62-71 | nothing usable stored gives []; otherwise the first at most six usable frames, in order |
| FrameList.SaveCustomFrames | app.js:73-77 | the slot holds the first at most six frames as frame records |
| FrameList.SaveThenLoad | app.js:62-77 | loading what was saved gives back the first six usable frames |
| FrameList.KeepAllUsable | app.js:67 | filtering records that are all usable keeps them all |
| FrameList.AddCustomFrame | app.js:450-452 | the slot then holds the new frame first, followed by the earlier custom frames in order, min(n + 1, 6) records in all |
| FrameList.UploadPutsNewestFirst | app.js:450-454 | after an upload the custom list is the new frame followed by the five newest earlier ones |
| FrameList.AllFrames | app.js:79 | the list on offer is the two built-in frames followed by the custom frames |
| FrameList.FindFrame | app.js:142-143 | the first frame with the id, or None exactly when no frame has it |
| Editor.Session.constructor | app.js:35-80 | start-up state: zoom 1, offset 0, no drag, no photo, the whole canvas as hole box, built-ins plus stored customs, "f1" selected |
| Editor.Session.FitToHole | app.js:207-234 | the new placement is `FitToBox` of the old one; nothing else changes |
| Editor.Session.FrameLoaded | app.js:518-525 | the hole mask and box are rebuilt from the frame's pixels, then the photo is refitted |
| Editor.Session.PhotoLoaded | app.js:419-426 | the new photo is recorded and fitted to the hole |
| Editor.Session.SetZoom | app.js:395-399 | the slider value becomes the zoom, unclamped |
| Editor.Session.PointerDown | app.js:367-374 | the drag state follows `Handle` for a down event |
| Editor.Session.PointerMove | app.js:376-390 | the drag state and offset follow `Handle` for a move event |
| Editor.Session.PointerUp | app.js:392 | the drag ends |
| Editor.Session.PointerCancel | app.js:393 | the drag ends |
| Editor.Session.SelectFrame | app.js:141-147 | an unknown id changes nothing; a known one is selected and the first matching frame's source is returned |
| Editor.Session.UploadFrame | app.js:447-457 | the slot gets the new frame first (if the storage accepts it), the list is reloaded with the new frame right after the built-ins, and the new id is selected |
| Editor.Session.Export | app.js:282-353 | refused exactly when no photo is loaded, as the download and share handlers refuse at app.js lines 469 and 486; otherwise the export-size hole mask, the scaled photo transform and the watermark square |

## Left out

- Canvas drawing is left out: `drawImage`, the `destination-in` composite, `clearRect` and the draw order of `draw`.
  `getImageData` and `putImageData` are modelled only as the input byte array and the output mask.
  The model says which mask and which transforms are used, not which pixels result.
- Image decoding, `FileReader`, object URLs, `toBlob`, the download link, the Web Share API and the install prompt are left out.
  They are browser I/O. Their successful outcomes arrive as method arguments: the photo's size, the frame's pixels, the upload's
  id/source/thumbnail. Their failure paths change no state.
- The frame id `"u" + Date.now()` is left out because it reads the clock. It is a parameter of `Session.UploadFrame`.
- `localStorage` and JSON are left out. The storage slot is the list it decodes to. An absent, unparsable or non-array value is `None`.
  A failed write (for example, quota exceeded) is the `storageAccepts` flag.
- Truthiness of `src`/`thumb` is modelled as "non-empty string". Non-string values in stored records are left out.
- `requestAnimationFrame` coalescing in `scheduleDraw` is left out because it is event-loop timing. Toasts and UI text are left out too.
- `pointerPos`'s screen-to-canvas conversion is left out. Pointer positions arrive in canvas pixels.
- IEEE-754 doubles are left out. Zoom, offsets and scale factors are exact reals. `Math.round` is floor(x + 1/2) on exact values,
  so results at exact halves may differ from the double computation. Pixel indices use exact integer `%` and `/`, which agree with
  `(i / 4) % w | 0` for canvas-sized buffers.
- Editor.Session.Export: requires a non-empty preview canvas (`Valid`), because `drawExport` divides by its width and height.
  The export size comes from the quality selector as a parameter.
- Editor.Session.PhotoLoaded: requires a photo of positive width and height. The code would divide by zero for an empty image.
- Slider bounds come from the page markup, which is not part of this model. They are the constructor's `zmin`/`zmax`.
- `sw.js` (a cache-first service worker) is left out because it is entirely I/O.
