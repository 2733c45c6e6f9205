/**
 * The compositing core of `texturize`: per column, a downward scan (from the
 * last row up) paints masked pixels with grass-bottom or texture, then an
 * upward scan (from row 0 down) paints the first rows of every masked run
 * with grass-top.
 *
 * The source drives both scans with counters (`below`, `above`) that reset
 * on every non-mask pixel. The specification functions here describe the
 * same outcome without counters: how many masked pixels lie directly below
 * (RunBelow) or directly above (RunAbove) a pixel decides what it shows. The
 * methods are the source's loops, proved to compute those functions.
 */
module Compositor {
  import opened Wrappers
  import opened Colors
  import opened Pixels
  import opened Palette

  /** Each grass strip (top part, bottom part) is 64 pixels wide. */
  const GrassWidth: nat := 64

  /**
   * Everything the two scans read: the (padded) source whose mask pixels are
   * painted, the texture, the two grass strips, the grass offsets, the mask
   * colour and the colour comparison in use.
   */
  datatype Scene = Scene(
    source: Raster,
    texture: Raster,
    grassTop: Raster,
    grassBottom: Raster,
    topOffset: nat,
    bottomOffset: nat,
    mask: Color,
    cmp: ColorMatch)
  {
    predicate Valid() {
      source.Valid() && texture.Valid() && grassTop.Valid() && grassBottom.Valid() &&
      grassTop.width == GrassWidth && grassBottom.width == GrassWidth &&
      grassTop.height == grassBottom.height &&
      topOffset <= grassTop.height && bottomOffset <= grassBottom.height
    }

    /** grassImage.height */
    function GrassHeight(): nat {
      grassTop.height
    }
  }

  /** colorEqual(getPixel(imageData, x, y), maskColor) */
  predicate IsMask(s: Scene, x: nat, y: nat)
    requires s.Valid() && x < s.source.width && y < s.source.height
  {
    Matches(s.cmp, s.source.At(x, y), s.mask)
  }

  // ---------------------------------------------------------------------
  // Grass offsets

  /** The number of consecutive close-to-black pixels in column 0 from row y down. */
  function LeadingBlack(g: Raster, y: nat): (r: nat)
    requires g.Valid() && g.width > 0 && y <= g.height
    decreases g.height - y
    ensures y + r <= g.height
    ensures forall k: nat :: y <= k < y + r ==> CloseToBlack(g.At(0, k))
    ensures y + r < g.height ==> !CloseToBlack(g.At(0, y + r))
  {
    if y == g.height || !CloseToBlack(g.At(0, y)) then 0
    else 1 + LeadingBlack(g, y + 1)
  }

  /** The number of consecutive close-to-black pixels in column 0 from row n - 1 up. */
  function TrailingBlack(g: Raster, n: nat): (r: nat)
    requires g.Valid() && g.width > 0 && n <= g.height
    ensures r <= n
    ensures forall k: nat :: n - r <= k < n ==> CloseToBlack(g.At(0, k))
    ensures r < n ==> !CloseToBlack(g.At(0, n - r - 1))
  {
    if n == 0 || !CloseToBlack(g.At(0, n - 1)) then 0
    else 1 + TrailingBlack(g, n - 1)
  }

  /** The grassTopOffset loop: rows from the top until column 0 is not close to black. */
  method GrassTopOffset(g: Raster) returns (offset: nat)
    requires g.Valid() && g.width > 0
    ensures offset == LeadingBlack(g, 0)
    ensures offset <= g.height
  {
    offset := 0;
    var y := 0;
    while y < g.height
      invariant y <= g.height && offset == y
      invariant LeadingBlack(g, 0) == y + LeadingBlack(g, y)
    {
      if !CloseToBlack(g.At(0, y)) {
        break;
      }
      offset := offset + 1;
      y := y + 1;
    }
  }

  /** The grassBottomOffset loop: rows from the bottom until column 0 is not close to black. */
  method GrassBottomOffset(g: Raster) returns (offset: nat)
    requires g.Valid() && g.width > 0
    ensures offset == TrailingBlack(g, g.height)
    ensures offset <= g.height
  {
    offset := 0;
    var y: int := g.height - 1;
    while y >= 0
      invariant -1 <= y < g.height && offset == g.height - 1 - y
      invariant TrailingBlack(g, g.height) == offset + TrailingBlack(g, y + 1)
    {
      if !CloseToBlack(g.At(0, y)) {
        break;
      }
      offset := offset + 1;
      y := y - 1;
    }
  }

  // ---------------------------------------------------------------------
  // Masked runs

  /** How many masked pixels lie directly below (x, y) in its column. */
  function RunBelow(s: Scene, x: nat, y: nat): (r: nat)
    requires s.Valid() && x < s.source.width && y < s.source.height
    decreases s.source.height - y
    ensures y + r < s.source.height
    ensures forall j: nat :: y < j <= y + r ==> IsMask(s, x, j)
    ensures y + r + 1 < s.source.height ==> !IsMask(s, x, y + r + 1)
  {
    if y + 1 == s.source.height || !IsMask(s, x, y + 1) then 0
    else 1 + RunBelow(s, x, y + 1)
  }

  /** How many masked pixels lie directly above (x, y) in its column. */
  function RunAbove(s: Scene, x: nat, y: nat): (r: nat)
    requires s.Valid() && x < s.source.width && y < s.source.height
    ensures r <= y
    ensures forall j: nat :: y - r <= j < y ==> IsMask(s, x, j)
    ensures r < y ==> !IsMask(s, x, y - r - 1)
  {
    if y == 0 || !IsMask(s, x, y - 1) then 0
    else 1 + RunAbove(s, x, y - 1)
  }

  /** A run of at least k masked pixels directly below (x, y) makes RunBelow at least k. */
  lemma {:induction false} RunBelowAtLeast(s: Scene, x: nat, y: nat, k: nat)
    requires s.Valid() && x < s.source.width && y + k < s.source.height
    requires forall j: nat :: y < j <= y + k ==> IsMask(s, x, j)
    ensures RunBelow(s, x, y) >= k
    decreases k
  {
    if k > 0 {
      RunBelowAtLeast(s, x, y + 1, k - 1);
    }
  }

  /** A run of at least k masked pixels directly above (x, y) makes RunAbove at least k. */
  lemma {:induction false} RunAboveAtLeast(s: Scene, x: nat, y: nat, k: nat)
    requires s.Valid() && x < s.source.width && y < s.source.height && k <= y
    requires forall j: nat :: y - k <= j < y ==> IsMask(s, x, j)
    ensures RunAbove(s, x, y) >= k
    decreases k
  {
    if k > 0 {
      RunAboveAtLeast(s, x, y - 1, k - 1);
    }
  }

  /** The start and reset value of `below`: grassHeight - grassBottomOffset - 1. */
  function BottomStart(s: Scene): int
    requires s.Valid()
  {
    s.GrassHeight() - s.bottomOffset - 1
  }

  /**
   * The value `below` holds when the downward scan reaches (x, y): reset to
   * BottomStart at the last row and above every non-mask pixel, one less
   * than at the pixel below when that pixel is masked.
   */
  function BelowCounter(s: Scene, x: nat, y: nat): (b: int)
    requires s.Valid() && x < s.source.width && y < s.source.height
    decreases s.source.height - y
  {
    if y + 1 == s.source.height || !IsMask(s, x, y + 1) then BottomStart(s)
    else BelowCounter(s, x, y + 1) - 1
  }

  /**
   * `below` is BottomStart less the masked pixels directly underneath, so a
   * grass-bottom sample row is never past the strip: it is below
   * grassHeight, and not negative while the run is shorter than BottomStart.
   */
  lemma {:induction false} BelowCounterIsDepth(s: Scene, x: nat, y: nat)
    requires s.Valid() && x < s.source.width && y < s.source.height
    decreases s.source.height - y
    ensures BelowCounter(s, x, y) == BottomStart(s) - RunBelow(s, x, y)
    ensures BelowCounter(s, x, y) < s.GrassHeight()
  {
    if y + 1 < s.source.height && IsMask(s, x, y + 1) {
      BelowCounterIsDepth(s, x, y + 1);
    }
  }

  // ---------------------------------------------------------------------
  // What each pixel becomes

  /**
   * The downward scan at (x, y), where the output held `prev`: a masked
   * pixel takes the grass-bottom sample at row `below` while `below` is not
   * negative and that sample is not close to black, and the tiled texture
   * otherwise. An empty texture keeps `prev`, only so that the function is
   * defined on every scene: `texturize` fails before the passes on one.
   */
  function DownPixel(s: Scene, x: nat, y: nat, prev: Color): (c: Color)
    requires s.Valid() && x < s.source.width && y < s.source.height
    ensures !IsMask(s, x, y) ==> c == prev
    ensures c == prev || c in s.grassBottom.pixels || c in s.texture.pixels
  {
    if !IsMask(s, x, y) then prev
    else
      var below := BelowCounter(s, x, y);
      BelowCounterIsDepth(s, x, y);
      if below >= 0 && !CloseToBlack(s.grassBottom.At(x % GrassWidth, below)) then
        s.grassBottom.At(x % GrassWidth, below)
      else if s.texture.width > 0 && s.texture.height > 0 then
        s.texture.At(x % s.texture.width, y % s.texture.height)
      else
        prev
  }

  /**
   * The upward scan at (x, y), where the output held `prev`: a masked pixel
   * with `above` masked pixels directly over it takes grass-top row
   * `above + grassTopOffset` while `above < grassHeight - grassTopOffset`,
   * unless that sample is close to black.
   */
  function TopPixel(s: Scene, x: nat, y: nat, prev: Color): (c: Color)
    requires s.Valid() && x < s.source.width && y < s.source.height
    ensures !IsMask(s, x, y) ==> c == prev
    ensures c == prev || c in s.grassTop.pixels
  {
    if !IsMask(s, x, y) then prev
    else
      var above := RunAbove(s, x, y);
      if above < s.GrassHeight() - s.topOffset &&
         !CloseToBlack(s.grassTop.At(x % GrassWidth, above + s.topOffset)) then
        s.grassTop.At(x % GrassWidth, above + s.topOffset)
      else
        prev
  }

  /** The output pixel after both scans, where the output buffer held `prev` before. */
  function Composited(s: Scene, x: nat, y: nat, prev: Color): (c: Color)
    requires s.Valid() && x < s.source.width && y < s.source.height
    ensures !IsMask(s, x, y) ==> c == prev
    ensures c == prev || c in s.grassTop.pixels || c in s.grassBottom.pixels || c in s.texture.pixels
  {
    TopPixel(s, x, y, DownPixel(s, x, y, prev))
  }

  /** The whole output buffer after both scans over every column, given the buffer before. */
  function Render(s: Scene, before: Raster): (r: Raster)
    requires s.Valid() && before.Valid()
    requires before.width == s.source.width && before.height == s.source.height
    ensures r.Valid() && r.width == before.width && r.height == before.height
  {
    Grid(before.width, before.height, (x: nat, y: nat) requires x < before.width && y < before.height =>
      Composited(s, x, y, before.At(x, y)))
  }

  lemma RenderAt(s: Scene, before: Raster, x: nat, y: nat)
    requires s.Valid() && before.Valid()
    requires before.width == s.source.width && before.height == s.source.height
    requires x < before.width && y < before.height
    ensures Render(s, before).At(x, y) == Composited(s, x, y, before.At(x, y))
  {
    GridAt(before.width, before.height, (x: nat, y: nat) requires x < before.width && y < before.height =>
      Composited(s, x, y, before.At(x, y)), x, y);
  }

  /** The buffer after both scans of columns 0 .. n - 1 only. */
  function RenderColumns(s: Scene, before: Raster, n: nat): (r: Raster)
    requires s.Valid() && before.Valid()
    requires before.width == s.source.width && before.height == s.source.height
    ensures r.Valid() && r.width == before.width && r.height == before.height
  {
    Grid(before.width, before.height, (x: nat, y: nat) requires x < before.width && y < before.height =>
      if x < n then Composited(s, x, y, before.At(x, y)) else before.At(x, y))
  }

  /** The buffer after both scans of column c alone. */
  function RenderColumn(s: Scene, before: Raster, c: nat): (r: Raster)
    requires s.Valid() && before.Valid()
    requires before.width == s.source.width && before.height == s.source.height
    ensures r.Valid() && r.width == before.width && r.height == before.height
  {
    Grid(before.width, before.height, (x: nat, y: nat) requires x < before.width && y < before.height =>
      if x == c then Composited(s, x, y, before.At(x, y)) else before.At(x, y))
  }

  lemma RenderColumnAt(s: Scene, before: Raster, c: nat, x: nat, y: nat)
    requires s.Valid() && before.Valid()
    requires before.width == s.source.width && before.height == s.source.height
    requires x < before.width && y < before.height
    ensures RenderColumn(s, before, c).At(x, y) ==
      if x == c then Composited(s, x, y, before.At(x, y)) else before.At(x, y)
  {
    GridAt(before.width, before.height, (x: nat, y: nat) requires x < before.width && y < before.height =>
      if x == c then Composited(s, x, y, before.At(x, y)) else before.At(x, y), x, y);
  }

  lemma RenderColumnsAt(s: Scene, before: Raster, n: nat, x: nat, y: nat)
    requires s.Valid() && before.Valid()
    requires before.width == s.source.width && before.height == s.source.height
    requires x < before.width && y < before.height
    ensures RenderColumns(s, before, n).At(x, y) ==
      if x < n then Composited(s, x, y, before.At(x, y)) else before.At(x, y)
  {
    GridAt(before.width, before.height, (x: nat, y: nat) requires x < before.width && y < before.height =>
      if x < n then Composited(s, x, y, before.At(x, y)) else before.At(x, y), x, y);
  }

  /**
   * Scanning column n after columns 0 .. n - 1 gives columns 0 .. n; no
   * column is touched before it is scanned, which is what makes the
   * scan's `prev` the pixel from before any scan.
   */
  lemma RenderColumnsStep(s: Scene, before: Raster, n: nat)
    requires s.Valid() && before.Valid()
    requires before.width == s.source.width && before.height == s.source.height
    ensures RenderColumn(s, RenderColumns(s, before, n), n) == RenderColumns(s, before, n + 1)
  {
    var mid := RenderColumns(s, before, n);
    forall x: nat, y: nat | x < before.width && y < before.height
      ensures RenderColumn(s, mid, n).At(x, y) == RenderColumns(s, before, n + 1).At(x, y)
    {
      RenderColumnAt(s, mid, n, x, y);
      RenderColumnsAt(s, before, n, x, y);
      RenderColumnsAt(s, before, n + 1, x, y);
    }
    RasterExt(RenderColumn(s, mid, n), RenderColumns(s, before, n + 1));
  }

  /** Scanning no column leaves the buffer as it was; scanning them all is Render. */
  lemma RenderColumnsEnds(s: Scene, before: Raster)
    requires s.Valid() && before.Valid()
    requires before.width == s.source.width && before.height == s.source.height
    ensures RenderColumns(s, before, 0) == before
    ensures RenderColumns(s, before, before.width) == Render(s, before)
  {
    forall x: nat, y: nat | x < before.width && y < before.height
      ensures RenderColumns(s, before, 0).At(x, y) == before.At(x, y)
      ensures RenderColumns(s, before, before.width).At(x, y) == Render(s, before).At(x, y)
    {
      RenderColumnsAt(s, before, 0, x, y);
      RenderColumnsAt(s, before, before.width, x, y);
      RenderAt(s, before, x, y);
    }
    RasterExt(RenderColumns(s, before, 0), before);
    RasterExt(RenderColumns(s, before, before.width), Render(s, before));
  }

  // ---------------------------------------------------------------------
  // Which source wins

  /** A run of exactly k masked pixels below (x, y) makes RunBelow exactly k. */
  lemma {:induction false} RunBelowIs(s: Scene, x: nat, y: nat, k: nat)
    requires s.Valid() && x < s.source.width && y + k < s.source.height
    requires forall j: nat :: y < j <= y + k ==> IsMask(s, x, j)
    requires y + k + 1 < s.source.height ==> !IsMask(s, x, y + k + 1)
    ensures RunBelow(s, x, y) == k
    decreases k
  {
    if k > 0 {
      RunBelowIs(s, x, y + 1, k - 1);
    }
  }

  /** A run of exactly k masked pixels above (x, y) makes RunAbove exactly k. */
  lemma {:induction false} RunAboveIs(s: Scene, x: nat, y: nat, k: nat)
    requires s.Valid() && x < s.source.width && y < s.source.height && k <= y
    requires forall j: nat :: y - k <= j < y ==> IsMask(s, x, j)
    requires k < y ==> !IsMask(s, x, y - k - 1)
    ensures RunAbove(s, x, y) == k
    decreases k
  {
    if k > 0 {
      RunAboveIs(s, x, y - 1, k - 1);
    }
  }

  /**
   * A masked pixel with exactly k masked pixels under it (then a non-mask
   * pixel or the bottom edge) takes grass-bottom row
   * grassHeight - grassBottomOffset - 1 - k, if that row exists and is not
   * close to black: the lowest pixel of a run gets the lowest grass row.
   */
  lemma GrassBottomAtDepth(s: Scene, x: nat, y: nat, k: nat, prev: Color)
    requires s.Valid() && x < s.source.width && y + k < s.source.height && IsMask(s, x, y)
    requires forall j: nat :: y < j <= y + k ==> IsMask(s, x, j)
    requires y + k + 1 < s.source.height ==> !IsMask(s, x, y + k + 1)
    requires k <= BottomStart(s)
    ensures 0 <= BottomStart(s) - k < s.GrassHeight()
    ensures var g := s.grassBottom.At(x % GrassWidth, BottomStart(s) - k);
      !CloseToBlack(g) ==> DownPixel(s, x, y, prev) == g
  {
    RunBelowIs(s, x, y, k);
    BelowCounterIsDepth(s, x, y);
  }

  /**
   * A masked pixel with more than grassHeight - grassBottomOffset - 1
   * masked pixels under it has used up the grass-bottom strip and takes the
   * tiled texture.
   */
  lemma TextureBelowGrass(s: Scene, x: nat, y: nat, k: nat, prev: Color)
    requires s.Valid() && x < s.source.width && y + k < s.source.height && IsMask(s, x, y)
    requires forall j: nat :: y < j <= y + k ==> IsMask(s, x, j)
    requires k > BottomStart(s)
    requires s.texture.width > 0 && s.texture.height > 0
    ensures DownPixel(s, x, y, prev) == s.texture.At(x % s.texture.width, y % s.texture.height)
  {
    RunBelowAtLeast(s, x, y, k);
    BelowCounterIsDepth(s, x, y);
  }

  /**
   * A masked pixel with exactly k masked pixels over it (then a non-mask
   * pixel or the top edge) ends up with grass-top row k + grassTopOffset
   * while k < grassHeight - grassTopOffset and that sample is not close to
   * black; with a close-to-black sample it keeps what the downward scan gave.
   */
  lemma GrassTopAtDepth(s: Scene, x: nat, y: nat, k: nat, prev: Color)
    requires s.Valid() && x < s.source.width && y < s.source.height && IsMask(s, x, y) && k <= y
    requires forall j: nat :: y - k <= j < y ==> IsMask(s, x, j)
    requires k < y ==> !IsMask(s, x, y - k - 1)
    requires k < s.GrassHeight() - s.topOffset
    ensures k + s.topOffset < s.GrassHeight()
    ensures var g := s.grassTop.At(x % GrassWidth, k + s.topOffset);
      Composited(s, x, y, prev) == if CloseToBlack(g) then DownPixel(s, x, y, prev) else g
  {
    RunAboveIs(s, x, y, k);
  }

  /**
   * Deep inside a masked region, past both grass strips, the output is the
   * tiled texture.
   */
  lemma TextureInside(s: Scene, x: nat, y: nat, up: nat, down: nat, prev: Color)
    requires s.Valid() && x < s.source.width && y + down < s.source.height && up <= y
    requires IsMask(s, x, y)
    requires forall j: nat :: y - up <= j < y ==> IsMask(s, x, j)
    requires forall j: nat :: y < j <= y + down ==> IsMask(s, x, j)
    requires up >= s.GrassHeight() - s.topOffset && down > BottomStart(s)
    requires s.texture.width > 0 && s.texture.height > 0
    ensures Composited(s, x, y, prev) == s.texture.At(x % s.texture.width, y % s.texture.height)
  {
    RunAboveAtLeast(s, x, y, up);
    TextureBelowGrass(s, x, y, down, prev);
  }

  /**
   * With grass strips that are close to black everywhere, no grass is ever
   * drawn: every masked pixel shows the tiled texture.
   */
  lemma BlackGrassDrawsTexture(s: Scene, x: nat, y: nat, prev: Color)
    requires s.Valid() && x < s.source.width && y < s.source.height && IsMask(s, x, y)
    requires forall gx: nat, gy: nat :: gx < GrassWidth && gy < s.GrassHeight() ==>
      CloseToBlack(s.grassTop.At(gx, gy)) && CloseToBlack(s.grassBottom.At(gx, gy))
    requires s.texture.width > 0 && s.texture.height > 0
    ensures Composited(s, x, y, prev) == s.texture.At(x % s.texture.width, y % s.texture.height)
  {
    BelowCounterIsDepth(s, x, y);
  }

  // ---------------------------------------------------------------------
  // Colours the downward scan hands to the palette

  /** The non-mask colours of column x at rows H - 1 down to y, in scan order. */
  function KeptColors(s: Scene, x: nat, y: nat): (r: seq<Color>)
    requires s.Valid() && x < s.source.width && y <= s.source.height
    decreases s.source.height - y
    ensures |r| <= s.source.height - y
    ensures forall k :: 0 <= k < |r| ==> !Matches(s.cmp, r[k], s.mask)
    ensures forall j: nat :: y <= j < s.source.height && !IsMask(s, x, j) ==> s.source.At(x, j) in r
  {
    if y == s.source.height then []
    else
      var rest := KeptColors(s, x, y + 1);
      MatchesIsEquivalence(s.cmp, s.source.At(x, y), s.mask, s.source.At(x, y));
      if IsMask(s, x, y) then rest else rest + [s.source.At(x, y)]
  }

  /** The non-mask colours of columns 0 .. n - 1, column by column. */
  function ImageScan(s: Scene, n: nat): (r: seq<Color>)
    requires s.Valid() && n <= s.source.width
    ensures forall k :: 0 <= k < |r| ==> !Matches(s.cmp, r[k], s.mask)
    ensures forall x: nat, y: nat :: x < n && y < s.source.height && !IsMask(s, x, y) ==>
      s.source.At(x, y) in r
  {
    if n == 0 then []
    else ImageScan(s, n - 1) + KeptColors(s, n - 1, 0)
  }

  /**
   * What the palette becomes over the scans: the entries it had stay in
   * place, every non-mask source colour ends up matched, every new entry is
   * a non-mask source colour, and a duplicate-free palette stays so.
   */
  lemma PaletteAfterScans(s: Scene, p: seq<Color>)
    requires s.Valid()
    ensures var r := AddAll(s.cmp, p, ImageScan(s, s.source.width));
      r[..|p|] == p &&
      (forall x: nat, y: nat :: x < s.source.width && y < s.source.height && !IsMask(s, x, y) ==>
        HasMatch(s.cmp, r, s.source.At(x, y))) &&
      (forall k :: |p| <= k < |r| ==> !Matches(s.cmp, r[k], s.mask)) &&
      (Distinct(s.cmp, p) ==> Distinct(s.cmp, r))
  {
    var scan := ImageScan(s, s.source.width);
    var r := AddAll(s.cmp, p, scan);
    AddAllFacts(s.cmp, p, scan);
    forall x: nat, y: nat | x < s.source.width && y < s.source.height && !IsMask(s, x, y)
      ensures HasMatch(s.cmp, r, s.source.At(x, y))
    {
      var k :| 0 <= k < |scan| && scan[k] == s.source.At(x, y);
      assert HasMatch(s.cmp, r, scan[k]);
    }
    forall k | |p| <= k < |r| ensures !Matches(s.cmp, r[k], s.mask) {
      var i :| 0 <= i < |scan| && scan[i] == r[k];
      assert !Matches(s.cmp, scan[i], s.mask);
    }
  }

  // ---------------------------------------------------------------------
  // The scans as loops over the output buffer

  /**
   * The downward scan of column x: `below` counts down from BottomStart on
   * masked pixels and is reset on every other pixel, whose colour is offered
   * to the palette when there is one.
   */
  method BottomPass(s: Scene, out: ImageData, x: nat, palette: ColorPalette?)
    requires s.Valid() && out.Valid() && x < s.source.width
    requires out.width == s.source.width && out.height == s.source.height
    modifies out.data, palette
    ensures forall x': nat, y': nat :: x' < out.width && y' < out.height ==>
      out.GetPixel(x', y') ==
        if x' == x then DownPixel(s, x, y', old(out.GetPixel(x', y'))) else old(out.GetPixel(x', y'))
    ensures palette != null ==> palette.colors == AddAll(s.cmp, old(palette.colors), KeptColors(s, x, 0))
  {
    var below: int := BottomStart(s);
    var y: int := s.source.height - 1;
    while y >= 0
      invariant -1 <= y < s.source.height
      invariant 0 <= y ==> below == BelowCounter(s, x, y)
      invariant forall x': nat, y': nat :: x' < out.width && y' < out.height ==>
        out.GetPixel(x', y') ==
          if x' == x && y' > y then DownPixel(s, x, y', old(out.GetPixel(x', y')))
          else old(out.GetPixel(x', y'))
      invariant palette != null ==>
        palette.colors == AddAll(s.cmp, old(palette.colors), KeptColors(s, x, y + 1))
      decreases y
    {
      var sourceColor := s.source.At(x, y);
      if Matches(s.cmp, sourceColor, s.mask) {
        DrawBelow(s, out, x, y, below);
        assert KeptColors(s, x, y) == KeptColors(s, x, y + 1);
        below := below - 1;
      } else {
        below := BottomStart(s);
        if palette != null {
          palette.CheckAndAdd(s.cmp, sourceColor);
          ghost var kept := KeptColors(s, x, y + 1);
          assert KeptColors(s, x, y) == kept + [sourceColor];
          assert (kept + [sourceColor])[..|kept|] == kept;
        }
      }
      y := y - 1;
    }
  }

  /**
   * The masked-pixel step of the downward scan: the grass-bottom sample at
   * row `below` unless `below` is negative or the sample is close to black,
   * the tiled texture otherwise, and no write when the texture is empty.
   */
  method DrawBelow(s: Scene, out: ImageData, x: nat, y: nat, below: int)
    requires s.Valid() && out.Valid() && x < s.source.width && y < s.source.height
    requires out.width == s.source.width && out.height == s.source.height
    requires IsMask(s, x, y) && below == BelowCounter(s, x, y)
    modifies out.data
    ensures forall x': nat, y': nat :: x' < out.width && y' < out.height ==>
      out.GetPixel(x', y') ==
        if x' == x && y' == y then DownPixel(s, x, y, old(out.GetPixel(x, y))) else old(out.GetPixel(x', y'))
  {
    var color: Option<Color> := None;
    BelowCounterIsDepth(s, x, y);
    if below >= 0 {
      color := Some(s.grassBottom.At(x % GrassWidth, below));
    }
    if color.None? || CloseToBlack(color.value) {
      if s.texture.width > 0 && s.texture.height > 0 {
        color := Some(s.texture.At(x % s.texture.width, y % s.texture.height));
      } else {
        color := None;
      }
    }
    if color.Some? {
      out.SetPixel(x, y, color.value);
    }
  }

  /**
   * The upward scan of column x: `above` counts the masked pixels met since
   * the last non-mask pixel, and grass-top is drawn while it is below
   * grassHeight - grassTopOffset.
   */
  method TopPass(s: Scene, out: ImageData, x: nat)
    requires s.Valid() && out.Valid() && x < s.source.width
    requires out.width == s.source.width && out.height == s.source.height
    modifies out.data
    ensures forall x': nat, y': nat :: x' < out.width && y' < out.height ==>
      out.GetPixel(x', y') ==
        if x' == x then TopPixel(s, x, y', old(out.GetPixel(x', y'))) else old(out.GetPixel(x', y'))
  {
    var above: nat := 0;
    var y: nat := 0;
    while y < s.source.height
      invariant y <= s.source.height
      invariant y < s.source.height ==> above == RunAbove(s, x, y)
      invariant forall x': nat, y': nat :: x' < out.width && y' < out.height ==>
        out.GetPixel(x', y') ==
          if x' == x && y' < y then TopPixel(s, x, y', old(out.GetPixel(x', y')))
          else old(out.GetPixel(x', y'))
    {
      var sourceColor := s.source.At(x, y);
      if Matches(s.cmp, sourceColor, s.mask) {
        DrawAbove(s, out, x, y, above);
        above := above + 1;
      } else {
        above := 0;
      }
      y := y + 1;
    }
  }

  /**
   * The masked-pixel step of the upward scan: grass-top row
   * `above + grassTopOffset` while `above < grassHeight - grassTopOffset`,
   * unless that sample is close to black.
   */
  method DrawAbove(s: Scene, out: ImageData, x: nat, y: nat, above: nat)
    requires s.Valid() && out.Valid() && x < s.source.width && y < s.source.height
    requires out.width == s.source.width && out.height == s.source.height
    requires IsMask(s, x, y) && above == RunAbove(s, x, y)
    modifies out.data
    ensures forall x': nat, y': nat :: x' < out.width && y' < out.height ==>
      out.GetPixel(x', y') ==
        if x' == x && y' == y then TopPixel(s, x, y, old(out.GetPixel(x, y))) else old(out.GetPixel(x', y'))
  {
    if above < s.GrassHeight() - s.topOffset {
      var color := s.grassTop.At(x % GrassWidth, above + s.topOffset);
      if !CloseToBlack(color) {
        out.SetPixel(x, y, color);
      }
    }
  }

  /** Both scans of column x, one after the other, as the body of the column loop. */
  method ColumnPass(s: Scene, out: ImageData, x: nat, palette: ColorPalette?)
    requires s.Valid() && out.Valid() && x < s.source.width
    requires out.width == s.source.width && out.height == s.source.height
    modifies out.data, palette
    ensures out.Snapshot() == RenderColumn(s, old(out.Snapshot()), x)
    ensures palette != null ==> palette.colors == AddAll(s.cmp, old(palette.colors), KeptColors(s, x, 0))
  {
    ghost var before := out.Snapshot();
    BottomPass(s, out, x, palette);
    ghost var mid := out.Snapshot();
    forall x': nat, y': nat | x' < out.width && y' < out.height
      ensures mid.At(x', y') == if x' == x then DownPixel(s, x, y', before.At(x', y')) else before.At(x', y')
    {
      assert mid.At(x', y') == out.GetPixel(x', y') && before.At(x', y') == old(out.GetPixel(x', y'));
    }
    TopPass(s, out, x);
    forall x': nat, y': nat | x' < out.width && y' < out.height
      ensures out.Snapshot().At(x', y') == RenderColumn(s, before, x).At(x', y')
    {
      assert out.GetPixel(x', y') == if x' == x then TopPixel(s, x, y', mid.At(x', y')) else mid.At(x', y');
      RenderColumnAt(s, before, x, x', y');
    }
    RasterExt(out.Snapshot(), RenderColumn(s, before, x));
  }

  /**
   * Both scans over every column, left to right: the output becomes
   * Render of what it held, and the palette (when given) takes in the
   * non-mask colours in scan order.
   */
  method Composite(s: Scene, out: ImageData, palette: ColorPalette?)
    requires s.Valid() && out.Valid()
    requires out.width == s.source.width && out.height == s.source.height
    modifies out.data, palette
    ensures out.Snapshot() == Render(s, old(out.Snapshot()))
    ensures palette != null ==> palette.colors == AddAll(s.cmp, old(palette.colors), ImageScan(s, s.source.width))
  {
    ghost var before := out.Snapshot();
    RenderColumnsEnds(s, before);
    var x := 0;
    while x < s.source.width
      invariant x <= s.source.width
      invariant out.Snapshot() == RenderColumns(s, before, x)
      invariant palette != null ==>
        palette.colors == AddAll(s.cmp, old(palette.colors), ImageScan(s, x))
    {
      ColumnPass(s, out, x, palette);
      RenderColumnsStep(s, before, x);
      if palette != null {
        AddAllAppend(s.cmp, old(palette.colors), ImageScan(s, x), KeptColors(s, x, 0));
      }
      x := x + 1;
    }
  }
}
