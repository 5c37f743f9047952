/** Where drawExport puts the logo watermark on an export of a given size. */
module Watermark {
  import opened Numeric
  import opened Wrappers

  /** The logo's square on the export canvas: top-left (x, y), side `side`. */
  datatype LogoRect = LogoRect(x: int, y: int, side: int)

  /** The gap between the canvas corner and the logo in "download" mode. */
  function Margin(size: nat): (m: int)
    ensures 0 <= m && m as real - 0.5 <= size as real * 0.045 < m as real + 0.5
  {
    Round(size as real * 0.045)
  }

  /** The logo's side: 14% of the export size, rounded. */
  function LogoSize(size: nat): (side: int)
    ensures 0 <= side && side as real - 0.5 <= size as real * 0.14 < side as real + 0.5
  {
    Round(size as real * 0.14)
  }

  /** The logo's square for an export of `size` pixels in `mode`: the top-left
      corner, inset by the margin, for "download"; horizontally centred with
      its centre at 62% of the height for "share"; no watermark in any other
      mode or while the logo image has not finished loading. */
  function WatermarkRect(size: nat, mode: string, logoReady: bool): (r: Option<LogoRect>)
    ensures r.Some? <==> logoReady && (mode == "download" || mode == "share")
    ensures r.Some? ==> r.value.side == LogoSize(size)
    ensures r.Some? ==> 0 <= r.value.x && r.value.x + r.value.side <= size
    ensures r.Some? ==> 0 <= r.value.y && r.value.y + r.value.side <= size
  {
    if !logoReady then None
    else
      var margin, logoSize := Margin(size), LogoSize(size);
      if mode == "download" then
        Some(LogoRect(margin, margin, logoSize))
      else if mode == "share" then
        var x := Round(size as real / 2.0 - logoSize as real / 2.0);
        var y := Round(size as real * 0.62 - logoSize as real / 2.0);
        Some(LogoRect(x, y, logoSize))
      else None
  }

  /** In "download" mode the logo sits in the top-left corner, one margin in
      from both edges. */
  lemma DownloadLogoInCorner(size: nat)
    ensures WatermarkRect(size, "download", true) == Some(LogoRect(Margin(size), Margin(size), LogoSize(size)))
  {
  }

  /** In "share" mode the logo is centred horizontally to the pixel (the gaps
      left and right differ by at most one) and its centre lies within half
      a pixel of 62% of the height. */
  lemma ShareLogoCentred(size: nat)
    ensures var r := WatermarkRect(size, "share", true).value;
      0 <= 2 * r.x + r.side - size <= 1 &&
      -1.0 < (2 * r.y + r.side) as real - 1.24 * size as real <= 1.0
  {
  }
}
