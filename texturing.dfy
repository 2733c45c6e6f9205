/**
 * What `texturize` does around the two scans, shared by the later and the
 * earlier version: the source is drawn on a canvas that may be taller by
 * 64 rows on top and/or bottom, the copy the scans read has those rows
 * filled with the source's edge rows, and the result is cropped back to the
 * source's height. FinalImage is the whole pipeline as one function.
 */
module Texturing {
  import opened Colors
  import opened Pixels
  import opened Compositor

  /** MAX_GRASS_HEIGHT: the padding added on each side that asks for it. */
  const MaxGrassHeight: nat := 64

  /** renderHeight: the source height plus 64 for each padded border. */
  function RenderHeight(originalHeight: nat, upper: bool, lower: bool): nat {
    originalHeight + (if upper then MaxGrassHeight else 0) + (if lower then MaxGrassHeight else 0)
  }

  /** heightOffset: where the source's row 0 lands on the canvas. */
  function HeightOffset(upper: bool): nat {
    if upper then MaxGrassHeight else 0
  }

  // The layout below is stated for any offset `ho` and canvas height `rh`
  // with ho + originalHeight <= rh; the boolean forms pick ho and rh as
  // `texturize` does.

  /** drawImage(sourceImage, 0, ho) on a transparent canvas rh rows high. */
  function Shifted(src: Raster, ho: nat, rh: nat): (r: Raster)
    requires src.Valid()
    ensures r.Valid() && r.width == src.width && r.height == rh
  {
    Region(src, 0, -(ho as int), src.width, rh)
  }

  lemma ShiftedAt(src: Raster, ho: nat, rh: nat, x: nat, y: nat)
    requires src.Valid() && x < src.width && y < rh
    ensures Shifted(src, ho, rh).At(x, y) ==
      if ho <= y < ho + src.height then src.At(x, y - ho) else Transparent
  {
    if ho <= y < ho + src.height {
      ShiftedSource(src, ho, rh, x, y - ho);
    } else {
      ShiftedClear(src, ho, rh, x, y);
    }
  }

  lemma ShiftedSource(src: Raster, ho: nat, rh: nat, x: nat, k: nat)
    requires src.Valid() && x < src.width && k < src.height && k + ho < rh
    ensures Shifted(src, ho, rh).At(x, k + ho) == src.At(x, k)
  {
    RegionAt(src, 0, -(ho as int), src.width, rh, x, k + ho);
  }

  lemma ShiftedClear(src: Raster, ho: nat, rh: nat, x: nat, y: nat)
    requires src.Valid() && x < src.width && y < rh && !(ho <= y < ho + src.height)
    ensures Shifted(src, ho, rh).At(x, y) == Transparent
  {
    RegionAt(src, 0, -(ho as int), src.width, rh, x, y);
  }

  /**
   * The canvas after `drawImage(sourceImage, 0, heightOffset)`: the source
   * rows at heightOffset onwards, transparent padding rows. Both
   * `imageData` and `newImageData` start as this.
   */
  function Canvas(src: Raster, upper: bool, lower: bool): (r: Raster)
    requires src.Valid()
    ensures r.Valid() && r.width == src.width && r.height == RenderHeight(src.height, upper, lower)
  {
    Shifted(src, HeightOffset(upper), RenderHeight(src.height, upper, lower))
  }

  /** The canvas shows source row y at row y + heightOffset. */
  lemma CanvasSourceRow(src: Raster, upper: bool, lower: bool, x: nat, y: nat)
    requires src.Valid() && x < src.width && y < src.height
    ensures y + HeightOffset(upper) < RenderHeight(src.height, upper, lower)
    ensures Canvas(src, upper, lower).At(x, y + HeightOffset(upper)) == src.At(x, y)
  {
    ShiftedSource(src, HeightOffset(upper), RenderHeight(src.height, upper, lower), x, y);
  }

  /** The source row that canvas row y shows once the padding rows repeat the edge rows. */
  function PadRow(originalHeight: nat, heightOffset: nat, y: nat): (r: nat)
    requires originalHeight > 0
    ensures r < originalHeight
    ensures heightOffset <= y < heightOffset + originalHeight ==> r == y - heightOffset
  {
    if y < heightOffset then 0
    else if y - heightOffset < originalHeight then y - heightOffset
    else originalHeight - 1
  }

  /**
   * A canvas rh rows high on which every row shows the nearest source row,
   * the source starting at row ho. An empty source leaves it transparent.
   */
  function Extended(src: Raster, ho: nat, rh: nat): (r: Raster)
    requires src.Valid()
    ensures r.Valid() && r.width == src.width && r.height == rh
  {
    Grid(src.width, rh, (x: nat, y: nat) requires x < src.width =>
      if src.height == 0 then Transparent else src.At(x, PadRow(src.height, ho, y)))
  }

  lemma ExtendedAt(src: Raster, ho: nat, rh: nat, x: nat, y: nat)
    requires src.Valid() && x < src.width && y < rh
    ensures Extended(src, ho, rh).At(x, y) ==
      if src.height == 0 then Transparent else src.At(x, PadRow(src.height, ho, y))
  {
    GridAt(src.width, rh, (x: nat, y: nat) requires x < src.width =>
      if src.height == 0 then Transparent else src.At(x, PadRow(src.height, ho, y)), x, y);
  }

  /**
   * `imageData` after padding: every row shows the nearest source row (the
   * source's row copies change nothing when the source is empty).
   */
  function Padded(src: Raster, upper: bool, lower: bool): (r: Raster)
    requires src.Valid()
    ensures r.Valid() && r.width == src.width && r.height == RenderHeight(src.height, upper, lower)
  {
    Extended(src, HeightOffset(upper), RenderHeight(src.height, upper, lower))
  }

  /** The padded buffer shows source row y at row y + heightOffset. */
  lemma PaddedSourceRow(src: Raster, upper: bool, lower: bool, x: nat, y: nat)
    requires src.Valid() && x < src.width && y < src.height
    ensures y + HeightOffset(upper) < RenderHeight(src.height, upper, lower)
    ensures Padded(src, upper, lower).At(x, y + HeightOffset(upper)) == src.At(x, y)
  {
    ExtendedSource(src, HeightOffset(upper), RenderHeight(src.height, upper, lower), x, y);
  }

  lemma ExtendedSource(src: Raster, ho: nat, rh: nat, x: nat, k: nat)
    requires src.Valid() && x < src.width && k < src.height && k + ho < rh
    ensures Extended(src, ho, rh).At(x, k + ho) == src.At(x, k)
  {
    ExtendedAt(src, ho, rh, x, k + ho);
  }

  /** The rows above the source repeat its first row, those below its last row. */
  lemma ExtendedRows(src: Raster, ho: nat, rh: nat, x: nat, y: nat)
    requires src.Valid() && src.height > 0 && ho + src.height <= rh && x < src.width && y < rh
    ensures var e, last := Extended(src, ho, rh), ho + src.height - 1;
      (y < ho ==> e.At(x, y) == e.At(x, ho)) &&
      (y > last ==> e.At(x, y) == e.At(x, last)) &&
      (ho <= y <= last ==> e.At(x, y) == src.At(x, y - ho))
  {
    ExtendedAt(src, ho, rh, x, y);
    ExtendedAt(src, ho, rh, x, ho);
    ExtendedAt(src, ho, rh, x, ho + src.height - 1);
  }

  /**
   * The padded rows copy the edge rows: with the upper border padded, rows
   * 0 .. 63 equal row heightOffset; with the lower border padded, the rows
   * from originalHeight + heightOffset on equal the row above them; the
   * rows in between are the source.
   */
  lemma PaddedRows(src: Raster, upper: bool, lower: bool, x: nat, y: nat)
    requires src.Valid() && src.height > 0 && x < src.width && y < RenderHeight(src.height, upper, lower)
    ensures var p, ho := Padded(src, upper, lower), HeightOffset(upper);
      (upper && y < MaxGrassHeight ==> p.At(x, y) == p.At(x, ho)) &&
      (lower && y >= src.height + ho ==> p.At(x, y) == p.At(x, src.height + ho - 1)) &&
      (ho <= y < ho + src.height ==> p.At(x, y) == src.At(x, y - ho))
  {
    ExtendedRows(src, HeightOffset(upper), RenderHeight(src.height, upper, lower), x, y);
  }

  /**
   * The two padding steps of `texturize` on `imageData`: getPixelRow of
   * the first source row copied into rows 0 .. 63, and of the last source
   * row into the 64 rows after it. With an empty source the copies change
   * nothing in the source either, so they are skipped.
   */
  method Pad(imageData: ImageData, src: Raster, upper: bool, lower: bool)
    requires src.Valid() && imageData.Valid()
    requires imageData.width == src.width && imageData.height == RenderHeight(src.height, upper, lower)
    requires imageData.Snapshot() == Canvas(src, upper, lower)
    modifies imageData.data
    ensures imageData.Snapshot() == Padded(src, upper, lower)
  {
    var originalHeight := src.height;
    var heightOffset := HeightOffset(upper);
    ghost var renderHeight := RenderHeight(originalHeight, upper, lower);
    if upper && originalHeight > 0 {
      var firstPixelRow := imageData.GetPixelRow(heightOffset);
      imageData.SetPixelRow(0, firstPixelRow, MaxGrassHeight);
    }
    assert imageData.Snapshot() == TopCopied(src, heightOffset, renderHeight);
    if lower && originalHeight > 0 {
      var y := originalHeight + heightOffset;
      var lastPixelRow := imageData.GetPixelRow(y - 1);
      imageData.SetPixelRow(y, lastPixelRow, MaxGrassHeight);
    }
    assert imageData.Snapshot() == BottomCopied(src, heightOffset, renderHeight);
    CopiesExtend(src, heightOffset, renderHeight);
  }

  /** The shifted canvas after the upper copy: rows 0 .. ho - 1 replaced by row ho. */
  function TopCopied(src: Raster, ho: nat, rh: nat): (r: Raster)
    requires src.Valid() && ho + src.height <= rh
    ensures r.Valid() && r.width == src.width && r.height == rh
  {
    var canvas := Shifted(src, ho, rh);
    if ho > 0 && src.height > 0 then FillRows(canvas, 0, canvas.Row(ho), ho) else canvas
  }

  /** ... and after the lower copy: the rows after the source replaced by its last row. */
  function BottomCopied(src: Raster, ho: nat, rh: nat): (r: Raster)
    requires src.Valid() && ho + src.height <= rh
    ensures r.Valid() && r.width == src.width && r.height == rh
  {
    var mid, last := TopCopied(src, ho, rh), ho + src.height;
    if last < rh && src.height > 0 then FillRows(mid, last, mid.Row(last - 1), rh - last) else mid
  }

  /** The two copies together extend the edge rows. */
  lemma CopiesExtend(src: Raster, ho: nat, rh: nat)
    requires src.Valid() && ho + src.height <= rh
    ensures BottomCopied(src, ho, rh) == Extended(src, ho, rh)
  {
    var canvas, mid, last := Shifted(src, ho, rh), TopCopied(src, ho, rh), ho + src.height;
    TopStep(src, ho, rh, if ho > 0 && src.height > 0 then canvas.Row(ho) else [], mid);
    BottomStep(src, ho, rh, mid, if last < rh && src.height > 0 then mid.Row(last - 1) else [],
               BottomCopied(src, ho, rh));
  }

  /** A canvas pixel once rows 0 .. ho - 1 hold source row 0. */
  function TopFilled(src: Raster, ho: nat, x: nat, y: nat): Color
    requires src.Valid() && x < src.width
  {
    if ho > 0 && src.height > 0 && y < ho then src.At(x, 0)
    else SampleOrClear(src, x, y - ho)
  }

  /** After the upper copy every canvas pixel is TopFilled. */
  lemma TopStep(src: Raster, ho: nat, rh: nat, firstRow: seq<Color>, mid: Raster)
    requires src.Valid() && ho + src.height <= rh
    requires var canvas := Shifted(src, ho, rh);
      if ho > 0 && src.height > 0 then
        firstRow == canvas.Row(ho) && mid == FillRows(canvas, 0, firstRow, ho)
      else mid == canvas
    ensures mid.Valid() && mid.width == src.width && mid.height == rh
    ensures forall x: nat, y: nat :: x < mid.width && y < mid.height ==>
      mid.At(x, y) == TopFilled(src, ho, x, y)
  {
    var canvas := Shifted(src, ho, rh);
    forall x: nat, y: nat | x < mid.width && y < mid.height
      ensures mid.At(x, y) == TopFilled(src, ho, x, y)
    {
      ShiftedAt(src, ho, rh, x, y);
      if ho > 0 && src.height > 0 {
        FillRowsAt(canvas, 0, firstRow, ho, x, y);
        ShiftedAt(src, ho, rh, x, ho);
      }
    }
  }

  /** After the lower copy the canvas is Extended. */
  lemma BottomStep(src: Raster, ho: nat, rh: nat, mid: Raster, lastRow: seq<Color>, last: Raster)
    requires src.Valid() && mid.Valid() && ho + src.height <= rh
    requires mid.width == src.width && mid.height == rh
    requires forall x: nat, y: nat :: x < mid.width && y < mid.height ==>
      mid.At(x, y) == TopFilled(src, ho, x, y)
    requires var row := ho + src.height;
      if row < rh && src.height > 0 then
        lastRow == mid.Row(row - 1) && last == FillRows(mid, row, lastRow, rh - row)
      else last == mid
    ensures last == Extended(src, ho, rh)
  {
    var row := ho + src.height;
    forall x: nat, y: nat | x < src.width && y < rh
      ensures last.At(x, y) == Extended(src, ho, rh).At(x, y)
    {
      ExtendedAt(src, ho, rh, x, y);
      if row < rh && src.height > 0 {
        FillRowsAt(mid, row, lastRow, rh - row, x, y);
      }
    }
    RasterExt(last, Extended(src, ho, rh));
  }

  // ---------------------------------------------------------------------
  // The whole pipeline

  /** One 64-pixel-wide grass strip starting at column `left`, as getImageData cuts it. */
  function Strip(grass: Raster, left: nat): (r: Raster)
    requires grass.Valid()
    ensures r.Valid() && r.width == GrassWidth && r.height == grass.height
  {
    Region(grass, left, 0, GrassWidth, grass.height)
  }

  /** grassTopOffset: the close-to-black rows at the top of the grass-top strip. */
  function TopOffset(grass: Raster): (r: nat)
    requires grass.Valid()
    ensures r <= grass.height
    ensures forall k: nat :: k < r ==> CloseToBlack(Strip(grass, 0).At(0, k))
    ensures r < grass.height ==> !CloseToBlack(Strip(grass, 0).At(0, r))
  {
    LeadingBlack(Strip(grass, 0), 0)
  }

  /** grassBottomOffset: the close-to-black rows at the bottom of the grass-bottom strip. */
  function BottomOffset(grass: Raster): (r: nat)
    requires grass.Valid()
    ensures r <= grass.height
    ensures forall k: nat :: grass.height - r <= k < grass.height ==> CloseToBlack(Strip(grass, GrassWidth).At(0, k))
    ensures r < grass.height ==> !CloseToBlack(Strip(grass, GrassWidth).At(0, grass.height - r - 1))
  {
    TrailingBlack(Strip(grass, GrassWidth), grass.height)
  }

  /**
   * What the scans read: the padded source, the texture and the two grass
   * strips with their offsets. The offsets are parameters so that the
   * lemmas below hold whatever they are; `texturize` uses TopOffset and
   * BottomOffset.
   */
  function SceneOf(src: Raster, texture: Raster, grass: Raster, mask: Color,
                   upper: bool, lower: bool, cmp: ColorMatch, topOffset: nat, bottomOffset: nat): (s: Scene)
    requires src.Valid() && texture.Valid() && grass.Valid()
    requires topOffset <= grass.height && bottomOffset <= grass.height
    ensures s.Valid() && s.source == Padded(src, upper, lower) && s.texture == texture
    ensures s.grassTop == Strip(grass, 0) && s.grassBottom == Strip(grass, GrassWidth)
    ensures s.topOffset == topOffset && s.bottomOffset == bottomOffset
    ensures s.mask == mask && s.cmp == cmp
  {
    Scene(Padded(src, upper, lower), texture, Strip(grass, 0), Strip(grass, GrassWidth),
          topOffset, bottomOffset, mask, cmp)
  }

  /**
   * The last step of `texturize`: when a border was padded, cropCanvas cuts
   * the h source rows starting at heightOffset out of the rendered canvas;
   * otherwise the canvas is the result as it is.
   */
  function Finish(rendered: Raster, heightOffset: nat, h: nat, crop: bool): (r: Raster)
    requires rendered.Valid() && heightOffset + h <= rendered.height
    requires !crop ==> heightOffset == 0 && h == rendered.height
    ensures r.Valid() && r.width == rendered.width && r.height == h
  {
    if crop then CropRows(rendered, heightOffset, h) else rendered
  }

  lemma FinishAt(rendered: Raster, heightOffset: nat, h: nat, crop: bool, x: nat, y: nat)
    requires rendered.Valid() && heightOffset + h <= rendered.height
    requires !crop ==> heightOffset == 0 && h == rendered.height
    requires x < rendered.width && y < h
    ensures Finish(rendered, heightOffset, h, crop).At(x, y) == rendered.At(x, y + heightOffset)
  {
    if crop {
      CropRowsAt(rendered, heightOffset, h, x, y);
    }
  }

  /**
   * The image `texturize` leaves on the canvas: both scans over the padded
   * source, writing into the unpadded canvas, then the crop back to the
   * source rows when a border was padded.
   */
  function FinalImage(src: Raster, texture: Raster, grass: Raster, mask: Color,
                      upper: bool, lower: bool, cmp: ColorMatch, topOffset: nat, bottomOffset: nat): (r: Raster)
    requires src.Valid() && texture.Valid() && grass.Valid()
    requires topOffset <= grass.height && bottomOffset <= grass.height
    ensures r.Valid() && r.width == src.width && r.height == src.height
  {
    var rendered := Render(SceneOf(src, texture, grass, mask, upper, lower, cmp, topOffset, bottomOffset), Canvas(src, upper, lower));
    Finish(rendered, HeightOffset(upper), src.height, upper || lower)
  }

  /** Pixel (x, y) of the final image is pixel (x, y + heightOffset) of the scans' output. */
  lemma FinalImageAt(src: Raster, texture: Raster, grass: Raster, mask: Color,
                     upper: bool, lower: bool, cmp: ColorMatch, topOffset: nat, bottomOffset: nat, x: nat, y: nat)
    requires src.Valid() && texture.Valid() && grass.Valid() && x < src.width && y < src.height
    requires topOffset <= grass.height && bottomOffset <= grass.height
    ensures var s, ho := SceneOf(src, texture, grass, mask, upper, lower, cmp, topOffset, bottomOffset), HeightOffset(upper);
      FinalImage(src, texture, grass, mask, upper, lower, cmp, topOffset, bottomOffset).At(x, y) ==
        Composited(s, x, y + ho, src.At(x, y))
  {
    CanvasSourceRow(src, upper, lower, x, y);
    FinishedAt(SceneOf(src, texture, grass, mask, upper, lower, cmp, topOffset, bottomOffset), Canvas(src, upper, lower),
               HeightOffset(upper), src.height, upper || lower, x, y, src.At(x, y));
  }

  /** Rendering then finishing shows, at (x, y), the composited pixel of row y + heightOffset. */
  lemma FinishedAt(s: Scene, canvas: Raster, heightOffset: nat, h: nat, crop: bool,
                   x: nat, y: nat, prev: Color)
    requires s.Valid() && canvas.Valid()
    requires canvas.width == s.source.width && canvas.height == s.source.height
    requires heightOffset + h <= canvas.height && (!crop ==> heightOffset == 0 && h == canvas.height)
    requires x < canvas.width && y < h && canvas.At(x, y + heightOffset) == prev
    ensures Finish(Render(s, canvas), heightOffset, h, crop).At(x, y) ==
      Composited(s, x, y + heightOffset, prev)
  {
    RenderAt(s, canvas, x, y + heightOffset);
    FinishAt(Render(s, canvas), heightOffset, h, crop, x, y);
  }

  /**
   * Only masked pixels change: a source pixel that does not match the mask
   * colour is in the final image as it was.
   */
  lemma NonMaskPixelsKept(src: Raster, texture: Raster, grass: Raster, mask: Color,
                          upper: bool, lower: bool, cmp: ColorMatch, topOffset: nat, bottomOffset: nat, x: nat, y: nat)
    requires src.Valid() && texture.Valid() && grass.Valid() && x < src.width && y < src.height
    requires topOffset <= grass.height && bottomOffset <= grass.height
    requires !Matches(cmp, src.At(x, y), mask)
    ensures FinalImage(src, texture, grass, mask, upper, lower, cmp, topOffset, bottomOffset).At(x, y) == src.At(x, y)
  {
    CanvasSourceRow(src, upper, lower, x, y);
    PaddedSourceRow(src, upper, lower, x, y);
    UnmaskedKept(SceneOf(src, texture, grass, mask, upper, lower, cmp, topOffset, bottomOffset), Canvas(src, upper, lower),
                 HeightOffset(upper), src.height, upper || lower, x, y, src.At(x, y));
  }

  lemma UnmaskedKept(s: Scene, canvas: Raster, heightOffset: nat, h: nat, crop: bool,
                     x: nat, y: nat, prev: Color)
    requires s.Valid() && canvas.Valid()
    requires canvas.width == s.source.width && canvas.height == s.source.height
    requires heightOffset + h <= canvas.height && (!crop ==> heightOffset == 0 && h == canvas.height)
    requires x < canvas.width && y < h && canvas.At(x, y + heightOffset) == prev
    requires !Matches(s.cmp, s.source.At(x, y + heightOffset), s.mask)
    ensures Finish(Render(s, canvas), heightOffset, h, crop).At(x, y) == prev
  {
    FinishedAt(s, canvas, heightOffset, h, crop, x, y, prev);
  }

  /** Every pixel of the final image is the source pixel, a grass-strip pixel or a texture pixel. */
  lemma FinalPixelOrigin(src: Raster, texture: Raster, grass: Raster, mask: Color,
                         upper: bool, lower: bool, cmp: ColorMatch, topOffset: nat, bottomOffset: nat, x: nat, y: nat)
    requires src.Valid() && texture.Valid() && grass.Valid() && x < src.width && y < src.height
    requires topOffset <= grass.height && bottomOffset <= grass.height
    ensures var c := FinalImage(src, texture, grass, mask, upper, lower, cmp, topOffset, bottomOffset).At(x, y);
      c == src.At(x, y) || c in Strip(grass, 0).pixels || c in Strip(grass, GrassWidth).pixels ||
      c in texture.pixels
  {
    FinalImageAt(src, texture, grass, mask, upper, lower, cmp, topOffset, bottomOffset, x, y);
  }

  /** A strip cut from a grass image that is close to black everywhere is close to black everywhere. */
  lemma BlackStrip(grass: Raster, left: nat)
    requires grass.Valid()
    requires forall gx: nat, gy: nat :: gx < grass.width && gy < grass.height ==> CloseToBlack(grass.At(gx, gy))
    ensures forall gx: nat, gy: nat :: gx < GrassWidth && gy < grass.height ==> CloseToBlack(Strip(grass, left).At(gx, gy))
  {
    forall gx: nat, gy: nat | gx < GrassWidth && gy < grass.height
      ensures CloseToBlack(Strip(grass, left).At(gx, gy))
    {
      RegionAt(grass, left, 0, GrassWidth, grass.height, gx, gy);
    }
  }

  /**
   * A grass image that is close to black everywhere draws nothing: every
   * masked source pixel ends up as the tiled texture, sampled at the row
   * the scans see it on.
   */
  lemma BlackGrassShowsTexture(src: Raster, texture: Raster, grass: Raster, mask: Color,
                               upper: bool, lower: bool, cmp: ColorMatch, topOffset: nat, bottomOffset: nat, x: nat, y: nat)
    requires src.Valid() && texture.Valid() && grass.Valid() && x < src.width && y < src.height
    requires topOffset <= grass.height && bottomOffset <= grass.height
    requires forall gx: nat, gy: nat :: gx < grass.width && gy < grass.height ==> CloseToBlack(grass.At(gx, gy))
    requires texture.width > 0 && texture.height > 0
    requires Matches(cmp, src.At(x, y), mask)
    ensures FinalImage(src, texture, grass, mask, upper, lower, cmp, topOffset, bottomOffset).At(x, y) ==
      texture.At(x % texture.width, (y + HeightOffset(upper)) % texture.height)
  {
    var s := SceneOf(src, texture, grass, mask, upper, lower, cmp, topOffset, bottomOffset);
    FinalImageAt(src, texture, grass, mask, upper, lower, cmp, topOffset, bottomOffset, x, y);
    PaddedSourceRow(src, upper, lower, x, y);
    BlackStrip(grass, 0);
    BlackStrip(grass, GrassWidth);
    BlackGrassDrawsTexture(s, x, y + HeightOffset(upper), src.At(x, y));
  }

  /**
   * What the upper padding is for: with grass at most 64 rows high, a
   * masked run that starts at the top edge of the source gets no grass-top,
   * because the 64 copied rows above it are masked too.
   */
  lemma NoGrassTopAtUpperBorder(src: Raster, texture: Raster, grass: Raster, mask: Color,
                                lower: bool, cmp: ColorMatch, topOffset: nat, bottomOffset: nat, x: nat, y: nat)
    requires src.Valid() && texture.Valid() && grass.Valid() && x < src.width && y < src.height
    requires topOffset <= grass.height && bottomOffset <= grass.height
    requires grass.height <= MaxGrassHeight
    requires forall j: nat :: j <= y ==> Matches(cmp, src.At(x, j), mask)
    ensures var s := SceneOf(src, texture, grass, mask, true, lower, cmp, topOffset, bottomOffset);
      FinalImage(src, texture, grass, mask, true, lower, cmp, topOffset, bottomOffset).At(x, y) ==
        DownPixel(s, x, y + MaxGrassHeight, src.At(x, y))
  {
    FinalImageAt(src, texture, grass, mask, true, lower, cmp, topOffset, bottomOffset, x, y);
    NoTopAfterExtension(SceneOf(src, texture, grass, mask, true, lower, cmp, topOffset, bottomOffset), src,
                        MaxGrassHeight, RenderHeight(src.height, true, lower), x, y, src.At(x, y));
  }

  /**
   * A masked run reaching the top source row, extended by ho >= grassHeight
   * copied rows, is too long for grass-top: only the downward scan paints it.
   */
  lemma NoTopAfterExtension(s: Scene, src: Raster, ho: nat, rh: nat, x: nat, y: nat, prev: Color)
    requires src.Valid() && s.Valid() && ho + src.height <= rh && s.source == Extended(src, ho, rh)
    requires x < src.width && y < src.height && s.GrassHeight() <= ho
    requires forall j: nat :: j <= y ==> Matches(s.cmp, src.At(x, j), s.mask)
    ensures Composited(s, x, y + ho, prev) == DownPixel(s, x, y + ho, prev)
  {
    forall j: nat | j < y + ho ensures IsMask(s, x, j) {
      ExtendedAt(src, ho, rh, x, j);
    }
    RunAboveAtLeast(s, x, y + ho, y + ho);
  }

  /**
   * What the lower padding is for: with grass at most 64 rows high, a
   * masked run that reaches the bottom edge of the source gets no
   * grass-bottom, because the 64 copied rows below it use the strip up;
   * its pixels take the texture (row y + heightOffset, as the scan sees it).
   */
  lemma NoGrassBottomAtLowerBorder(src: Raster, texture: Raster, grass: Raster, mask: Color,
                                   upper: bool, cmp: ColorMatch, topOffset: nat, bottomOffset: nat, x: nat, y: nat)
    requires src.Valid() && texture.Valid() && grass.Valid() && x < src.width && y < src.height
    requires topOffset <= grass.height && bottomOffset <= grass.height
    requires grass.height <= MaxGrassHeight
    requires texture.width > 0 && texture.height > 0
    requires forall j: nat :: y <= j < src.height ==> Matches(cmp, src.At(x, j), mask)
    ensures var s, ho := SceneOf(src, texture, grass, mask, upper, true, cmp, topOffset, bottomOffset), HeightOffset(upper);
      DownPixel(s, x, y + ho, src.At(x, y)) ==
        texture.At(x % texture.width, (y + ho) % texture.height)
  {
    TextureAfterExtension(SceneOf(src, texture, grass, mask, upper, true, cmp, topOffset, bottomOffset), src,
                          HeightOffset(upper), RenderHeight(src.height, upper, true), x, y, src.At(x, y));
  }

  /**
   * A masked run reaching the last source row, extended by more copied rows
   * than the grass is high, is texture wherever the downward scan meets it.
   */
  lemma TextureAfterExtension(s: Scene, src: Raster, ho: nat, rh: nat, x: nat, y: nat, prev: Color)
    requires src.Valid() && s.Valid() && s.source == Extended(src, ho, rh)
    requires ho + src.height + s.GrassHeight() <= rh
    requires x < src.width && y < src.height
    requires s.texture.width > 0 && s.texture.height > 0
    requires forall j: nat :: y <= j < src.height ==> Matches(s.cmp, src.At(x, j), s.mask)
    ensures DownPixel(s, x, y + ho, prev) == s.texture.At(x % s.texture.width, (y + ho) % s.texture.height)
  {
    forall j: nat | y + ho <= j < rh ensures IsMask(s, x, j) {
      ExtendedAt(src, ho, rh, x, j);
    }
    MaskedToBottom(s, x, y + ho, prev);
  }

  /** A masked run longer than the grass that reaches the last row is texture at its top. */
  lemma MaskedToBottom(s: Scene, x: nat, y: nat, prev: Color)
    requires s.Valid() && x < s.source.width && y < s.source.height
    requires s.GrassHeight() < s.source.height - y
    requires s.texture.width > 0 && s.texture.height > 0
    requires forall j: nat :: y <= j < s.source.height ==> IsMask(s, x, j)
    ensures DownPixel(s, x, y, prev) == s.texture.At(x % s.texture.width, y % s.texture.height)
  {
    TextureBelowGrass(s, x, y, s.source.height - y - 1, prev);
  }
}
