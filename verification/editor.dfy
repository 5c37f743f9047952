/** The editing session: the state app.js keeps in module-level variables
    (zoom, offsets, drag state, the loaded photo, the hole mask and box, the
    frame list and the selected frame) gathered in one object whose methods
    are the event handlers that change it. */
module Editor {
  import opened Numeric
  import opened Wrappers
  import opened HoleMask
  import opened Placement
  import opened Drag
  import opened Watermark
  import opened FrameList

  /** Why an export was refused. */
  datatype ExportError = NoPhotoLoaded

  /** What drawExport composes: the hole mask at the export size, the
      transform the photo is drawn with, and the watermark's square if any. */
  datatype ExportPlan = ExportPlan(mask: seq<byte>, photo: Affine, watermark: Option<LogoRect>)

  class Session {
    /** The preview canvas's size in pixels. */
    const canvasW: nat
    const canvasH: nat
    /** The zoom slider's range. */
    const zoomMin: real
    const zoomMax: real

    var zoom: real
    var offsetX: real
    var offsetY: real

    var isDragging: bool
    var lastX: real
    var lastY: real

    /** Whether a photo is loaded, and its size. */
    var hasPhoto: bool
    var imgW: nat
    var imgH: nat

    /** The hole mask at preview size (empty before any frame has loaded) and the hole box. */
    var holeMask: seq<byte>
    var holeBBox: BBox

    /** The browser-storage slot of the custom frames, the frames on offer
        and the id of the selected one. */
    var stored: Option<seq<StoredItem>>
    var frames: seq<Frame>
    var selectedFrameId: string

    ghost predicate Valid()
      reads this
    {
      canvasW > 0 && canvasH > 0 &&
      (hasPhoto ==> imgW > 0 && imgH > 0)
    }

    /** The photo's placement. */
    function PhotoPlacement(): Transform
      reads this
    {
      Transform(zoom, offsetX, offsetY)
    }

    /** The state the pointer handlers work on. */
    function PointerState(): Pointer
      reads this
    {
      Pointer(isDragging, lastX, lastY, offsetX, offsetY)
    }

    /** The start-up state: zoom 1, offset 0, no drag, no photo, the whole
        canvas as the hole box, and the frames the storage slot yields with
        the first built-in frame selected. */
    constructor (w: nat, h: nat, zmin: real, zmax: real, slot: Option<seq<StoredItem>>)
      requires w > 0 && h > 0
      ensures Valid()
      ensures canvasW == w && canvasH == h && zoomMin == zmin && zoomMax == zmax
      ensures PhotoPlacement() == Transform(1.0, 0.0, 0.0) && !isDragging && !hasPhoto
      ensures holeMask == [] && holeBBox == BBox(0, 0, w, h)
      ensures stored == slot && frames == AllFrames(slot) && selectedFrameId == "f1"
    {
      canvasW, canvasH, zoomMin, zoomMax := w, h, zmin, zmax;
      zoom, offsetX, offsetY := 1.0, 0.0, 0.0;
      isDragging, lastX, lastY := false, 0.0, 0.0;
      hasPhoto, imgW, imgH := false, 0, 0;
      holeMask, holeBBox := [], BBox(0, 0, w, h);
      stored := slot;
      var offered := AllFrames(slot);
      frames := offered;
      selectedFrameId := offered[0].id;
    }

    /** fitToHole: cover-fit the photo to the hole box and centre it there;
        nothing changes when no photo is loaded. */
    method FitToHole()
      requires Valid()
      modifies this`zoom, this`offsetX, this`offsetY
      ensures PhotoPlacement() == FitToBox(old(PhotoPlacement()), hasPhoto, imgW, imgH, holeBBox, zoomMin, zoomMax)
    {
      if !hasPhoto {
        return;
      }
      var box := holeBBox;
      var boxCx := box.x as real + box.w as real / 2.0;
      var boxCy := box.y as real + box.h as real / 2.0;
      var scaleX := box.w as real / imgW as real;
      var scaleY := box.h as real / imgH as real;
      zoom := MaxReal(scaleX, scaleY);
      zoom := Clamp(zoom, zoomMin, zoomMax);
      offsetX := boxCx;
      offsetY := boxCy;
    }

    /** The frame image's onload: rebuild the hole mask and box from its
        pixels drawn at preview size, then fit the photo to the new hole. */
    method FrameLoaded(d: array<byte>)
      requires Valid()
      requires d.Length == 4 * (canvasW * canvasH)
      modifies this`holeMask, this`holeBBox, this`zoom, this`offsetX, this`offsetY
      ensures IsHoleMaskOf(holeMask, d[..])
      ensures holeBBox == HoleBBox(d[..], canvasW, canvasH)
      ensures PhotoPlacement() == FitToBox(old(PhotoPlacement()), hasPhoto, imgW, imgH, holeBBox, zoomMin, zoomMax)
    {
      var m, box := BuildHoleMaskAndBBox(d, canvasW, canvasH);
      holeMask, holeBBox := m[..], box;
      FitToHole();
    }

    /** The photo image's onload: the new photo replaces the old one and is
        fitted to the hole. */
    method PhotoLoaded(w: nat, h: nat)
      requires Valid()
      requires w > 0 && h > 0
      modifies this`hasPhoto, this`imgW, this`imgH, this`zoom, this`offsetX, this`offsetY
      ensures Valid() && hasPhoto && imgW == w && imgH == h
      ensures PhotoPlacement() == FitToBox(old(PhotoPlacement()), true, w, h, holeBBox, zoomMin, zoomMax)
    {
      hasPhoto, imgW, imgH := true, w, h;
      FitToHole();
    }

    /** The zoom slider's input handler: takes the slider's value as it is. */
    method SetZoom(z: real)
      modifies this`zoom
      ensures zoom == z
    {
      zoom := z;
    }

    method PointerDown(x: real, y: real)
      modifies this`isDragging, this`lastX, this`lastY
      ensures PointerState() == Handle(old(PointerState()), hasPhoto, Down(x, y))
    {
      if !hasPhoto {
        return;
      }
      isDragging := true;
      lastX, lastY := x, y;
    }

    method PointerMove(x: real, y: real)
      modifies this`lastX, this`lastY, this`offsetX, this`offsetY
      ensures PointerState() == Handle(old(PointerState()), hasPhoto, Move(x, y))
    {
      if !isDragging || !hasPhoto {
        return;
      }
      var dx, dy := x - lastX, y - lastY;
      lastX, lastY := x, y;
      offsetX := offsetX + dx;
      offsetY := offsetY + dy;
    }

    method PointerUp()
      modifies this`isDragging
      ensures PointerState() == Handle(old(PointerState()), hasPhoto, Up)
    {
      isDragging := false;
    }

    method PointerCancel()
      modifies this`isDragging
      ensures PointerState() == Handle(old(PointerState()), hasPhoto, Cancel)
    {
      isDragging := false;
    }

    /** selectFrame: an unknown id changes nothing; otherwise the id becomes
        the selection and the frame's source is returned to be loaded. */
    method SelectFrame(id: string) returns (toLoad: Option<string>)
      modifies this`selectedFrameId
      ensures toLoad.None? <==> forall i :: 0 <= i < |frames| ==> frames[i].id != id
      ensures toLoad.Some? ==> toLoad == Some(FindFrame(frames, id).value.src)
      ensures selectedFrameId == if toLoad.Some? then id else old(selectedFrameId)
    {
      var found := FindFrame(frames, id);
      if found.None? {
        toLoad := None;
        return;
      }
      selectedFrameId := id;
      toLoad := Some(found.value.src);
      assert !(forall i :: 0 <= i < |frames| ==> frames[i].id != id);
    }

    /** The frame-upload handler once the file has been read and decoded:
        the new frame goes first in the stored list (when the storage accepts
        the write), the list on offer is reloaded, the new id is selected and
        its source is returned to be loaded. */
    method UploadFrame(id: string, src: string, thumb: string, storageAccepts: bool) returns (toLoad: string)
      modifies this`stored, this`frames, this`selectedFrameId
      ensures stored == if storageAccepts then AddCustomFrame(old(stored), Frame(id, "Custom", src, thumb)) else old(stored)
      ensures frames == AllFrames(stored)
      ensures storageAccepts && src != "" && thumb != "" ==> frames[|BuiltInFrames|] == Frame(id, "Custom", src, thumb)
      ensures selectedFrameId == id && toLoad == src
    {
      var item := Frame(id, "Custom", src, thumb);
      var customs := LoadCustomFrames(stored);
      customs := [item] + customs;
      if storageAccepts {
        stored := SaveCustomFrames(customs);
      }
      frames := BuiltInFrames + LoadCustomFrames(stored);
      selectedFrameId := id;
      toLoad := src;
      if storageAccepts && Usable(item) {
        UploadPutsNewestFirst(old(stored), item);
      }
    }

    /** The download and share buttons: refused while no photo is loaded;
        otherwise drawExport's plan for a square export of `size` pixels,
        from the frame's pixels drawn at that size. */
    method Export(frameAtSize: array<byte>, size: nat, mode: string, logoReady: bool)
      returns (r: Result<ExportPlan, ExportError>)
      requires Valid()
      requires frameAtSize.Length == 4 * (size * size)
      ensures r.Failure? <==> !hasPhoto
      ensures r.Success? ==>
        IsHoleMaskOf(r.value.mask, frameAtSize[..]) &&
        r.value.photo == ExportAffine(PhotoPlacement(), imgW, imgH, size, canvasW, canvasH) &&
        r.value.watermark == WatermarkRect(size, mode, logoReady)
    {
      if !hasPhoto {
        return Failure(NoPhotoLoaded);
      }
      var m := BuildMask(frameAtSize);
      var photo := ExportAffine(PhotoPlacement(), imgW, imgH, size, canvasW, canvasH);
      r := Success(ExportPlan(m[..], photo, WatermarkRect(size, mode, logoReady)));
    }
  }
}
