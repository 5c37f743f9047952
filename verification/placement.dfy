/** Where the photo is drawn: the zoom/offset state, cover-fitting it to the
    hole's box (app.js, fitToHole) and the canvas transforms of the preview
    (drawPhotoMasked) and of the export (drawExport). */
module Placement {
  import opened Numeric
  import opened HoleMask

  /** The photo's placement in preview canvas pixels: its centre is drawn at
      (offsetX, offsetY) and it is scaled by zoom. */
  datatype Transform = Transform(zoom: real, offsetX: real, offsetY: real)

  /** A canvas transform as drawPhotoMasked and drawExport build it with translate(tx, ty),
      scale(sx, sy), translate(−cx, −cy): photo point (x, y) lands on
      (tx + sx·(x − cx), ty + sy·(y − cy)). */
  datatype Affine = Affine(tx: real, ty: real, sx: real, sy: real, cx: real, cy: real)
  {
    function ApplyX(x: real): real { tx + sx * (x - cx) }
    function ApplyY(y: real): real { ty + sy * (y - cy) }
  }

  /** The cover-fit zoom of an imgW × imgH photo for a box: the larger of the
      two ratios box.w / imgW and box.h / imgH. */
  function CoverZoom(box: BBox, imgW: nat, imgH: nat): (z: real)
    requires imgW > 0 && imgH > 0
    ensures z * imgW as real >= box.w as real && z * imgH as real >= box.h as real
    ensures z * imgW as real == box.w as real || z * imgH as real == box.h as real
  {
    var scaleX, scaleY := box.w as real / imgW as real, box.h as real / imgH as real;
    assert scaleX * imgW as real == box.w as real;
    assert scaleY * imgH as real == box.h as real;
    MaxReal(scaleX, scaleY)
  }

  /** No smaller zoom covers the box: CoverZoom is the least covering zoom. */
  lemma CoverZoomIsLeast(box: BBox, imgW: nat, imgH: nat, z: real)
    requires imgW > 0 && imgH > 0
    requires z * imgW as real >= box.w as real && z * imgH as real >= box.h as real
    ensures CoverZoom(box, imgW, imgH) <= z
  {
  }

  /** fitToHole: with no photo loaded nothing changes; otherwise the zoom is
      the cover-fit zoom clamped to the slider's [zmin, zmax] and the photo's
      centre is put on the centre of the hole box. */
  function FitToBox(t: Transform, hasPhoto: bool, imgW: nat, imgH: nat,
                    box: BBox, zmin: real, zmax: real): (r: Transform)
    requires hasPhoto ==> imgW > 0 && imgH > 0
    ensures !hasPhoto ==> r == t
    ensures hasPhoto && zmin <= zmax ==> zmin <= r.zoom <= zmax
    ensures hasPhoto ==> r.zoom >= zmin
    ensures hasPhoto ==> r.zoom == Clamp(CoverZoom(box, imgW, imgH), zmin, zmax)
    ensures hasPhoto ==> r.offsetX == box.x as real + box.w as real / 2.0 &&
                         r.offsetY == box.y as real + box.h as real / 2.0
  {
    if !hasPhoto then t
    else
      var boxCx, boxCy := box.x as real + box.w as real / 2.0, box.y as real + box.h as real / 2.0;
      Transform(Clamp(CoverZoom(box, imgW, imgH), zmin, zmax), boxCx, boxCy)
  }

  /** Fitting twice gives the same placement as fitting once. */
  lemma FitIdempotent(t: Transform, hasPhoto: bool, imgW: nat, imgH: nat,
                      box: BBox, zmin: real, zmax: real)
    requires hasPhoto ==> imgW > 0 && imgH > 0
    ensures var once := FitToBox(t, hasPhoto, imgW, imgH, box, zmin, zmax);
      FitToBox(once, hasPhoto, imgW, imgH, box, zmin, zmax) == once
  {
  }

  /** A 1080 × 1080 canvas whose hole box is 840 × 840 at (120, 120) and an
      800 × 600 photo: the fit zooms by max(840/800, 840/600) = 1.4 and
      centres the photo on the canvas. */
  lemma FitExample(t: Transform)
    ensures FitToBox(t, true, 800, 600, BBox(120, 120, 840, 840), 0.5, 3.0) == Transform(1.4, 540.0, 540.0)
  {
  }

  /** The preview transform of drawPhotoMasked: translate to the offset,
      scale by zoom, then move the photo's centre to the origin. */
  function PreviewAffine(t: Transform, imgW: nat, imgH: nat): (a: Affine)
    ensures a.ApplyX(imgW as real / 2.0) == t.offsetX && a.ApplyY(imgH as real / 2.0) == t.offsetY
    ensures a.ApplyX(0.0) == t.offsetX - t.zoom * (imgW as real / 2.0)
    ensures a.ApplyX(imgW as real) == t.offsetX + t.zoom * (imgW as real / 2.0)
    ensures a.ApplyY(0.0) == t.offsetY - t.zoom * (imgH as real / 2.0)
    ensures a.ApplyY(imgH as real) == t.offsetY + t.zoom * (imgH as real / 2.0)
  {
    var a := Affine(t.offsetX, t.offsetY, t.zoom, t.zoom, imgW as real / 2.0, imgH as real / 2.0);
    assert a.ApplyY(imgH as real / 2.0) == t.offsetY + t.zoom * 0.0;
    a
  }

  /** After a fit, the photo's centre is drawn at the centre of the box. */
  lemma FitCentresPhoto(t: Transform, imgW: nat, imgH: nat, box: BBox, zmin: real, zmax: real)
    requires imgW > 0 && imgH > 0
    ensures var a := PreviewAffine(FitToBox(t, true, imgW, imgH, box, zmin, zmax), imgW, imgH);
      a.ApplyX(imgW as real / 2.0) == box.x as real + box.w as real / 2.0 &&
      a.ApplyY(imgH as real / 2.0) == box.y as real + box.h as real / 2.0
  {
  }

  /** Unless the slider's maximum stops it, the fitted photo covers the whole
      hole box: its left, right, top and bottom edges lie on or outside the box's. */
  lemma FitCoversBox(t: Transform, imgW: nat, imgH: nat, box: BBox, zmin: real, zmax: real)
    requires imgW > 0 && imgH > 0
    requires CoverZoom(box, imgW, imgH) <= zmax
    ensures var a := PreviewAffine(FitToBox(t, true, imgW, imgH, box, zmin, zmax), imgW, imgH);
      a.ApplyX(0.0) <= box.x as real && (box.x + box.w) as real <= a.ApplyX(imgW as real) &&
      a.ApplyY(0.0) <= box.y as real && (box.y + box.h) as real <= a.ApplyY(imgH as real)
  {
  }

  /** Unless the slider clamps the zoom, the fitted photo is no larger than
      needed: its left or its top edge lies exactly on the box's. */
  lemma FitTouchesBox(t: Transform, imgW: nat, imgH: nat, box: BBox, zmin: real, zmax: real)
    requires imgW > 0 && imgH > 0
    requires zmin <= CoverZoom(box, imgW, imgH) <= zmax
    ensures var a := PreviewAffine(FitToBox(t, true, imgW, imgH, box, zmin, zmax), imgW, imgH);
      a.ApplyX(0.0) == box.x as real || a.ApplyY(0.0) == box.y as real
  {
  }

  /** The export transform of drawExport: the preview offsets and zoom
      multiplied by sx = size / prevW horizontally and sy = size / prevH
      vertically. */
  function ExportAffine(t: Transform, imgW: nat, imgH: nat, size: nat, prevW: nat, prevH: nat): (a: Affine)
    requires prevW > 0 && prevH > 0
    ensures a.ApplyX(imgW as real / 2.0) == t.offsetX * (size as real / prevW as real)
    ensures a.ApplyY(imgH as real / 2.0) == t.offsetY * (size as real / prevH as real)
    ensures a.ApplyX(imgW as real) - a.ApplyX(0.0) == t.zoom * (size as real / prevW as real) * imgW as real
    ensures a.ApplyY(imgH as real) - a.ApplyY(0.0) == t.zoom * (size as real / prevH as real) * imgH as real
  {
    var sx, sy := size as real / prevW as real, size as real / prevH as real;
    Affine(t.offsetX * sx, t.offsetY * sy, t.zoom * sx, t.zoom * sy, imgW as real / 2.0, imgH as real / 2.0)
  }

  /** Every photo point lands in the export at its preview position scaled by
      size / prevW and size / prevH: the export is the preview, resized. */
  lemma ExportScalesPreview(t: Transform, imgW: nat, imgH: nat, size: nat, prevW: nat, prevH: nat,
                            x: real, y: real)
    requires prevW > 0 && prevH > 0
    ensures ExportAffine(t, imgW, imgH, size, prevW, prevH).ApplyX(x)
         == PreviewAffine(t, imgW, imgH).ApplyX(x) * (size as real / prevW as real)
    ensures ExportAffine(t, imgW, imgH, size, prevW, prevH).ApplyY(y)
         == PreviewAffine(t, imgW, imgH).ApplyY(y) * (size as real / prevH as real)
  {
  }

  /** On a square preview the export stretches every displacement between
      two photo points by the same factor size / prev on both axes, so the
      photo keeps its aspect ratio. */
  lemma SquareExportIsIsotropic(t: Transform, imgW: nat, imgH: nat, size: nat, prev: nat,
                                x1: real, y1: real, x2: real, y2: real)
    requires prev > 0
    ensures var e, p, k := ExportAffine(t, imgW, imgH, size, prev, prev), PreviewAffine(t, imgW, imgH),
                           size as real / prev as real;
      e.ApplyX(x1) - e.ApplyX(x2) == k * (p.ApplyX(x1) - p.ApplyX(x2)) &&
      e.ApplyY(y1) - e.ApplyY(y2) == k * (p.ApplyY(y1) - p.ApplyY(y2))
  {
    ExportScalesPreview(t, imgW, imgH, size, prev, prev, x1, y1);
    ExportScalesPreview(t, imgW, imgH, size, prev, prev, x2, y2);
  }
}
