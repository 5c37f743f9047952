/** The hole-mask builder: turns a frame's RGBA pixels into a mask that is
    opaque exactly where the frame is transparent, and finds the padded
    bounding box of the hole (app.js, buildHoleMaskAndBBox and the mask loop
    of drawExport).

    Pixel buffers are row-major RGBA: pixel q occupies bytes 4q .. 4q+3 and
    sits at column q % w, row q / w. */
module HoleMask {
  import opened Numeric

  /** A pixel belongs to the hole when its hole opacity exceeds this. */
  const HoleThreshold: int := 5

  /** An axis-aligned box in canvas pixels: origin (x, y), size w × h. */
  datatype BBox = BBox(x: int, y: int, w: int, h: int)

  /** The opacity the mask gives a pixel whose frame alpha is `frameAlpha`. */
  function HoleAlpha(frameAlpha: byte): (a: byte)
    ensures a as int + frameAlpha as int == 255
  {
    255 - frameAlpha
  }

  /** Byte k of the mask built from frame buffer d: white, alpha inverted. */
  function MaskByte(d: seq<byte>, k: nat): byte
    requires k < |d|
  {
    if k % 4 == 3 then HoleAlpha(d[k]) else 255
  }

  /** m is the hole mask of the frame buffer d, byte for byte. */
  predicate IsHoleMaskOf(m: seq<byte>, d: seq<byte>)
  {
    |m| == |d| && forall k :: 0 <= k < |d| ==> m[k] == MaskByte(d, k)
  }

  /** The mask, read pixel by pixel: r = g = b = 255 and a = 255 − frame alpha. */
  lemma MaskAtPixel(m: seq<byte>, d: seq<byte>, p: nat)
    requires IsHoleMaskOf(m, d) && 4 * p + 3 < |d|
    ensures m[4 * p] == 255 && m[4 * p + 1] == 255 && m[4 * p + 2] == 255
    ensures m[4 * p + 3] as int == 255 - d[4 * p + 3] as int
  {
  }

  /** The first n bytes of ms are those of the hole mask of d. */
  predicate MaskedPrefix(ms: seq<byte>, d: seq<byte>, n: nat)
  {
    |ms| == |d| && n <= |d| && forall k :: 0 <= k < n ==> ms[k] == MaskByte(d, k)
  }

  /** Writing one pixel's four mask bytes at byte i extends a masked prefix by that pixel. */
  lemma MaskFourBytes(before: seq<byte>, after: seq<byte>, d: seq<byte>, i: nat)
    requires MaskedPrefix(before, d, i) && i % 4 == 0 && i + 4 <= |d|
    requires after == before[i := 255][i + 1 := 255][i + 2 := 255][i + 3 := HoleAlpha(d[i + 3])]
    ensures MaskedPrefix(after, d, i + 4)
  {
    assert (i + 1) % 4 == 1 && (i + 2) % 4 == 2 && (i + 3) % 4 == 3;
  }

  /** Pixel q of the frame buffer d is part of the hole. */
  predicate IsHolePixel(d: seq<byte>, q: nat)
    requires 4 * q + 3 < |d|
  {
    HoleAlpha(d[4 * q + 3]) as int > HoleThreshold
  }

  /** The running state of the bounding-box scan. */
  datatype Scan = Scan(any: bool, minX: int, minY: int, maxX: int, maxY: int)

  /** The scan state after visiting the first n pixels of d on a canvas w
      pixels wide and h high: minX, minY start at w, h and maxX, maxY at 0,
      and each hole pixel widens the box to include its column and row. */
  function ScanPixels(d: seq<byte>, w: nat, h: nat, n: nat): (s: Scan)
    requires n == 0 || w > 0
    requires 4 * n <= |d|
    ensures !s.any ==> s == Scan(false, w, h, 0, 0)
  {
    if n == 0 then Scan(false, w, h, 0, 0)
    else
      var s := ScanPixels(d, w, h, n - 1);
      if IsHolePixel(d, n - 1) then Widen(s, (n - 1) % w, (n - 1) / w) else s
  }

  /** One hole pixel at column px, row py widens the scanned box to include
      it: the result is the smallest box holding both the old box and the
      pixel. */
  function Widen(s: Scan, px: int, py: int): (r: Scan)
    ensures r.any
    ensures r.minX <= px <= r.maxX && r.minY <= py <= r.maxY
    ensures r.minX <= s.minX && r.minY <= s.minY && s.maxX <= r.maxX && s.maxY <= r.maxY
    ensures (r.minX == px || r.minX == s.minX) && (r.minY == py || r.minY == s.minY)
    ensures (r.maxX == px || r.maxX == s.maxX) && (r.maxY == py || r.maxY == s.maxY)
  {
    Scan(true,
         if px < s.minX then px else s.minX,
         if py < s.minY then py else s.minY,
         if px > s.maxX then px else s.maxX,
         if py > s.maxY then py else s.maxY)
  }

  /** The scan reports a hole exactly when some visited pixel is a hole pixel. */
  lemma {:induction false} ScanAnyIffHole(d: seq<byte>, w: nat, h: nat, n: nat)
    requires n == 0 || w > 0
    requires 4 * n <= |d|
    ensures ScanPixels(d, w, h, n).any <==> exists q :: 0 <= q < n && IsHolePixel(d, q)
  {
    if n > 0 {
      ScanAnyIffHole(d, w, h, n - 1);
      if ScanPixels(d, w, h, n).any && !IsHolePixel(d, n - 1) {
        var q :| 0 <= q < n - 1 && IsHolePixel(d, q);
      }
    }
  }

  /** Every visited hole pixel lies inside the scanned box. */
  lemma {:induction false} ScanCoversHoles(d: seq<byte>, w: nat, h: nat, n: nat, q: nat)
    requires w > 0 && 4 * n <= |d|
    requires q < n && IsHolePixel(d, q)
    ensures ScanPixels(d, w, h, n).any
    ensures ScanPixels(d, w, h, n).minX <= q % w <= ScanPixels(d, w, h, n).maxX
    ensures ScanPixels(d, w, h, n).minY <= q / w <= ScanPixels(d, w, h, n).maxY
  {
    if q < n - 1 {
      ScanCoversHoles(d, w, h, n - 1, q);
    }
  }

  /** Each side of a scanned box is the column or row of some hole pixel, so
      the box is the tightest one containing the hole. */
  lemma {:induction false} ScanIsTight(d: seq<byte>, w: nat, h: nat, n: nat)
    requires w > 0 && 4 * n <= |d| && n <= w * h
    requires ScanPixels(d, w, h, n).any
    ensures exists q :: 0 <= q < n && IsHolePixel(d, q) && q % w == ScanPixels(d, w, h, n).minX
    ensures exists q :: 0 <= q < n && IsHolePixel(d, q) && q % w == ScanPixels(d, w, h, n).maxX
    ensures exists q :: 0 <= q < n && IsHolePixel(d, q) && q / w == ScanPixels(d, w, h, n).minY
    ensures exists q :: 0 <= q < n && IsHolePixel(d, q) && q / w == ScanPixels(d, w, h, n).maxY
  {
    var s, t := ScanPixels(d, w, h, n), ScanPixels(d, w, h, n - 1);
    var last := n - 1;
    RowInCanvas(last, w, h);
    if !t.any {
      assert IsHolePixel(d, last);
      assert s.minX == last % w && s.maxX == last % w;
      assert s.minY == last / w && s.maxY == last / w;
    } else {
      ScanIsTight(d, w, h, n - 1);
      if IsHolePixel(d, last) {
        assert s.minX == t.minX || s.minX == last % w;
        assert s.maxX == t.maxX || s.maxX == last % w;
        assert s.minY == t.minY || s.minY == last / w;
        assert s.maxY == t.maxY || s.maxY == last / w;
      }
    }
  }

  /** A scan that found a hole ends with a box inside the canvas. */
  lemma ScanInCanvas(d: seq<byte>, w: nat, h: nat, n: nat)
    requires w > 0 && 4 * n <= |d| && n <= w * h
    requires ScanPixels(d, w, h, n).any
    ensures 0 <= ScanPixels(d, w, h, n).minX <= ScanPixels(d, w, h, n).maxX < w
    ensures 0 <= ScanPixels(d, w, h, n).minY <= ScanPixels(d, w, h, n).maxY < h
  {
    var s := ScanPixels(d, w, h, n);
    ScanIsTight(d, w, h, n);
    var top :| 0 <= top < n && IsHolePixel(d, top) && top / w == s.minY;
    var bottom :| 0 <= bottom < n && IsHolePixel(d, bottom) && bottom / w == s.maxY;
    var left :| 0 <= left < n && IsHolePixel(d, left) && left % w == s.minX;
    ScanCoversHoles(d, w, h, n, top);
    ScanCoversHoles(d, w, h, n, left);
    RowInCanvas(top, w, h);
    RowInCanvas(bottom, w, h);
  }

  /** Pixel q of a w × h canvas lies on a row below h. */
  lemma RowInCanvas(q: nat, w: nat, h: nat)
    requires w > 0 && q < w * h
    ensures 0 <= q / w < h
  {
  }

  /** The padding added around the hole: 1% of the shorter side, rounded. */
  function Pad(w: nat, h: nat): (pad: int)
    ensures pad >= 0
    ensures pad >= 1 <==> MinInt(w, h) >= 50
  {
    Round(MinInt(w, h) as real * 0.01)
  }

  /** The box buildHoleMaskAndBBox makes of a finished scan: when a hole was
      found, the scanned box moved out by the pad on the left and top, with
      width maxX − minX + 2·pad and height maxY − minY + 2·pad, each value
      clamped separately; otherwise the whole canvas. */
  function PaddedBox(s: Scan, w: nat, h: nat): (b: BBox)
    ensures !s.any ==> b == BBox(0, 0, w, h)
    ensures s.any && w > 0 && h > 0 ==> 0 <= b.x <= w && 0 <= b.y <= h && 1 <= b.w <= w && 1 <= b.h <= h
    ensures s.any && 0 <= s.minX <= w && 0 <= s.minY <= h ==> b.x <= s.minX && b.y <= s.minY
    ensures s.any && Pad(w, h) >= 1 && 0 <= s.minX <= s.maxX < w && 0 <= s.minY <= s.maxY < h ==>
      s.maxX < b.x + b.w && s.maxY < b.y + b.h
    ensures s.any && 0 <= s.minX <= s.maxX < w && 0 <= s.minY <= s.maxY < h ==>
      var pad := Pad(w, h);
      s.minX - pad <= b.x && s.minY - pad <= b.y &&
      b.w <= (if s.maxX - s.minX + 2 * pad < 1 then 1 else s.maxX - s.minX + 2 * pad) &&
      b.h <= (if s.maxY - s.minY + 2 * pad < 1 then 1 else s.maxY - s.minY + 2 * pad)
  {
    if s.any then
      var pad := Pad(w, h);
      BBox(ClampInt(s.minX - pad, 0, w), ClampInt(s.minY - pad, 0, h),
           ClampInt(s.maxX - s.minX + 2 * pad, 1, w), ClampInt(s.maxY - s.minY + 2 * pad, 1, h))
    else
      BBox(0, 0, w, h)
  }

  /** The hole bounding box of frame buffer d on a w × h canvas. */
  function HoleBBox(d: seq<byte>, w: nat, h: nat): (b: BBox)
    requires |d| == 4 * (w * h)
    ensures (forall q :: 0 <= q < w * h ==> !IsHolePixel(d, q)) ==> b == BBox(0, 0, w, h)
    ensures (exists q :: 0 <= q < w * h && IsHolePixel(d, q)) ==>
      0 <= b.x <= w && 0 <= b.y <= h && 1 <= b.w <= w && 1 <= b.h <= h
  {
    ScanAnyIffHole(d, w, h, w * h);
    PaddedBox(ScanPixels(d, w, h, w * h), w, h)
  }

  /** On a canvas whose shorter side is at least 50 px the pad is positive and
      the hole box contains every hole pixel: its column lies in [x, x + w)
      and its row in [y, y + h). */
  lemma HoleBBoxCoversHoles(d: seq<byte>, w: nat, h: nat, q: nat)
    requires |d| == 4 * (w * h) && MinInt(w, h) >= 50
    requires q < w * h && IsHolePixel(d, q)
    ensures HoleBBox(d, w, h).x <= q % w < HoleBBox(d, w, h).x + HoleBBox(d, w, h).w
    ensures HoleBBox(d, w, h).y <= q / w < HoleBBox(d, w, h).y + HoleBBox(d, w, h).h
  {
    ScanCoversHoles(d, w, h, w * h, q);
    ScanInCanvas(d, w, h, w * h);
    RowInCanvas(q, w, h);
  }

  /** Because the width is maxX − minX + 2·pad with no + 1, a canvas under
      50 px (pad 0) gets a box one column short: on a 3 × 1 canvas whose
      outer pixels are transparent, the right-hand hole pixel is left out. */
  lemma UnpaddedBoxMissesLastColumn()
    ensures var d: seq<byte> := [0, 0, 0, 0, 0, 0, 0, 255, 0, 0, 0, 0];
      IsHolePixel(d, 2) && HoleBBox(d, 3, 1).x + HoleBBox(d, 3, 1).w <= 2
  {
  }

  /** When every hole pixel sits in one column, the clamp of the width to at
      least 1 keeps that column: on a 3 × 1 canvas whose only hole pixel is
      the middle one, the box is exactly that pixel. */
  lemma SingleColumnHoleIsKept()
    ensures var d: seq<byte> := [0, 0, 0, 255, 0, 0, 0, 0, 0, 0, 0, 255];
      IsHolePixel(d, 1) && HoleBBox(d, 3, 1) == BBox(1, 0, 1, 1)
  {
    var d: seq<byte> := [0, 0, 0, 255, 0, 0, 0, 0, 0, 0, 0, 255];
    assert ScanPixels(d, 3, 1, 3) == Scan(true, 1, 0, 1, 0) by {
      assert !IsHolePixel(d, 0) && IsHolePixel(d, 1) && !IsHolePixel(d, 2);
      ScanSingleHole(d, 3, 1, 3, 1);
    }
    assert PaddedBox(Scan(true, 1, 0, 1, 0), 3, 1) == BBox(1, 0, 1, 1) by {
      assert Pad(3, 1) == 0;
    }
  }

  /** The scan of a buffer with exactly one hole pixel q0 is the one-pixel
      box at q0's column and row. */
  lemma {:induction false} ScanSingleHole(d: seq<byte>, w: nat, h: nat, n: nat, q0: nat)
    requires w > 0 && 4 * n <= |d| && n <= w * h && q0 < n
    requires forall q :: 0 <= q < n ==> (IsHolePixel(d, q) <==> q == q0)
    ensures ScanPixels(d, w, h, n) == Scan(true, q0 % w, q0 / w, q0 % w, q0 / w)
  {
    if q0 < n - 1 {
      ScanSingleHole(d, w, h, n - 1, q0);
    } else {
      ScanAnyIffHole(d, w, h, n - 1);
      RowInCanvas(q0, w, h);
    }
  }

  /** The box's right and bottom edges are never clamped to the canvas: with
      a positive pad they can pass it by up to pad − 1 pixels; with pad 0
      they stay inside it. */
  lemma HoleBBoxEdgeBound(d: seq<byte>, w: nat, h: nat)
    requires |d| == 4 * (w * h)
    ensures Pad(w, h) >= 1 ==> HoleBBox(d, w, h).x + HoleBBox(d, w, h).w <= w + Pad(w, h) - 1
    ensures Pad(w, h) >= 1 ==> HoleBBox(d, w, h).y + HoleBBox(d, w, h).h <= h + Pad(w, h) - 1
    ensures Pad(w, h) == 0 ==> HoleBBox(d, w, h).x + HoleBBox(d, w, h).w <= w
    ensures Pad(w, h) == 0 ==> HoleBBox(d, w, h).y + HoleBBox(d, w, h).h <= h
  {
    if w > 0 && ScanPixels(d, w, h, w * h).any {
      ScanInCanvas(d, w, h, w * h);
    }
  }

  /** When the left clamp cuts the pad off, the width is not reduced to match,
      so the box reaches 2·pad past the far hole column: a scan spanning
      columns 0 .. 99 and rows 50 .. 60 of a 200 × 200 canvas (pad 2) gets a
      box whose right edge is 103 = 99 + 4. */
  lemma ClampedPadWidensFarSide()
    ensures PaddedBox(Scan(true, 0, 50, 99, 60), 200, 200) == BBox(0, 48, 103, 14)
  {
    assert Pad(200, 200) == 2;
  }

  /** On a 200 × 200 canvas whose only hole pixel is the bottom-right corner,
      the box reaches column 201: the box is not confined to the canvas. */
  lemma BoxCanOverhangCanvas()
    ensures var d: seq<byte> := seq(160000, k => if k == 159999 then 0 else 255);
      HoleBBox(d, 200, 200).x + HoleBBox(d, 200, 200).w == 201
  {
    var d: seq<byte> := seq(160000, k => if k == 159999 then 0 else 255);
    forall q | 0 <= q < 40000
      ensures IsHolePixel(d, q) <==> q == 39999
    {
      assert d[4 * q + 3] == if 4 * q + 3 == 159999 then 0 else 255;
    }
    ScanSingleHole(d, 200, 200, 40000, 39999);
    assert Pad(200, 200) == 2;
  }

  /** buildHoleMaskAndBBox: one pass over the frame's RGBA bytes that writes
      the hole mask into a new buffer and scans for the hole's box. */
  method BuildHoleMaskAndBBox(d: array<byte>, w: nat, h: nat) returns (m: array<byte>, box: BBox)
    requires d.Length == 4 * (w * h)
    ensures IsHoleMaskOf(m[..], d[..])
    ensures box == HoleBBox(d[..], w, h)
  {
    m := new byte[d.Length];
    ghost var frame := d[..];
    var scan := Scan(false, w, h, 0, 0);
    var i := 0;
    ghost var q := 0;
    assert w * h > 0 ==> w > 0;
    while i < d.Length
      invariant i == 4 * q && 0 <= i <= d.Length
      invariant MaskedPrefix(m[..], frame, i)
      invariant scan == ScanPixels(frame, w, h, q)
    {
      assert i / 4 == q && i % 4 == 0 && i + 3 == 4 * q + 3 < d.Length;
      var a := d[i + 3];
      var holeA := HoleAlpha(a);
      ghost var before := m[..];
      m[i], m[i + 1], m[i + 2], m[i + 3] := 255, 255, 255, holeA;
      MaskFourBytes(before, m[..], frame, i);
      if holeA as int > HoleThreshold {
        scan := Widen(scan, (i / 4) % w, (i / 4) / w);
      }
      i, q := i + 4, q + 1;
    }
    assert q == w * h;
    box := PaddedBox(scan, w, h);
  }

  /** The mask loop of drawExport: the same inversion over a frame drawn at
      the export size, without the box scan. */
  method BuildMask(d: array<byte>) returns (m: array<byte>)
    requires d.Length % 4 == 0
    ensures IsHoleMaskOf(m[..], d[..])
  {
    m := new byte[d.Length];
    ghost var frame := d[..];
    var i := 0;
    ghost var q := 0;
    while i < d.Length
      invariant i == 4 * q && 0 <= i <= d.Length
      invariant MaskedPrefix(m[..], frame, i)
    {
      assert i % 4 == 0 && i + 3 == 4 * q + 3 < d.Length;
      var holeA := HoleAlpha(d[i + 3]);
      ghost var before := m[..];
      m[i], m[i + 1], m[i + 2], m[i + 3] := 255, 255, 255, holeA;
      MaskFourBytes(before, m[..], frame, i);
      i, q := i + 4, q + 1;
    }
  }
}
