/**
 * generateTerrainTexturesPalette: the colour table of a terrain, built from
 * the background colour and every pixel of its texture and grass strips,
 * each image read column by column.
 */
module TerrainPalette {
  import opened Colors
  import opened Pixels
  import opened Palette

  /** The first n pixels of column x, top to bottom. */
  function ColumnPixels(t: Raster, x: nat, n: nat): (r: seq<Color>)
    requires t.Valid() && x < t.width && n <= t.height
    ensures |r| == n
    ensures forall y: nat :: y < n ==> r[y] == t.At(x, y)
  {
    if n == 0 then [] else ColumnPixels(t, x, n - 1) + [t.At(x, n - 1)]
  }

  /** The pixels of columns 0 .. n - 1, column by column. */
  function ImagePixels(t: Raster, n: nat): seq<Color>
    requires t.Valid() && n <= t.width
  {
    if n == 0 then [] else ImagePixels(t, n - 1) + ColumnPixels(t, n - 1, t.height)
  }

  /** Every pixel of the first n columns is listed, and only pixels of t are. */
  lemma {:induction false} ImagePixelsCover(t: Raster, n: nat)
    requires t.Valid() && n <= t.width
    ensures forall x: nat, y: nat :: x < n && y < t.height ==> t.At(x, y) in ImagePixels(t, n)
    ensures forall c :: c in ImagePixels(t, n) ==> c in t.pixels
  {
    if n > 0 {
      ImagePixelsCover(t, n - 1);
      var col := ColumnPixels(t, n - 1, t.height);
      assert forall y: nat :: y < t.height ==> t.At(n - 1, y) == col[y];
    }
  }

  predicate AllValid(ts: seq<Raster>) {
    forall i :: 0 <= i < |ts| ==> ts[i].Valid()
  }

  /** The pixels of the first n images, in order. */
  function AllPixels(ts: seq<Raster>, n: nat): seq<Color>
    requires AllValid(ts) && n <= |ts|
  {
    if n == 0 then [] else AllPixels(ts, n - 1) + ImagePixels(ts[n - 1], ts[n - 1].width)
  }

  /** Every pixel of the first n images is listed, and only pixels of those images are. */
  lemma {:induction false} AllPixelsCover(ts: seq<Raster>, n: nat)
    requires AllValid(ts) && n <= |ts|
    ensures forall i, x: nat, y: nat :: 0 <= i < n && x < ts[i].width && y < ts[i].height ==>
      ts[i].At(x, y) in AllPixels(ts, n)
    ensures forall c :: c in AllPixels(ts, n) ==> exists i :: 0 <= i < n && c in ts[i].pixels
  {
    if n > 0 {
      AllPixelsCover(ts, n - 1);
      ImagePixelsCover(ts[n - 1], ts[n - 1].width);
    }
  }

  // The three loop levels of the generator, one step each.

  lemma PixelStep(p: seq<Color>, t: Raster, x: nat, y: nat)
    requires t.Valid() && x < t.width && y < t.height
    ensures AddAll(RgbOnly, p, ColumnPixels(t, x, y + 1)) ==
      AddIfAbsent(RgbOnly, AddAll(RgbOnly, p, ColumnPixels(t, x, y)), t.At(x, y))
  {
    AddAllSnoc(RgbOnly, p, ColumnPixels(t, x, y), t.At(x, y));
  }

  lemma ColumnsStep(p: seq<Color>, t: Raster, x: nat)
    requires t.Valid() && x < t.width
    ensures AddAll(RgbOnly, p, ImagePixels(t, x + 1)) ==
      AddAll(RgbOnly, AddAll(RgbOnly, p, ImagePixels(t, x)), ColumnPixels(t, x, t.height))
  {
    AddAllAppend(RgbOnly, p, ImagePixels(t, x), ColumnPixels(t, x, t.height));
  }

  lemma ImageStep(p: seq<Color>, ts: seq<Raster>, i: nat)
    requires AllValid(ts) && i < |ts|
    ensures AddAll(RgbOnly, p, AllPixels(ts, i + 1)) ==
      AddAll(RgbOnly, AddAll(RgbOnly, p, AllPixels(ts, i)), ImagePixels(ts[i], ts[i].width))
  {
    AddAllAppend(RgbOnly, p, AllPixels(ts, i), ImagePixels(ts[i], ts[i].width));
  }

  /**
   * The loop nest over textures, columns and rows, offering each pixel to
   * checkAndAddToColorPalette on a palette that starts as [bgColor]. The
   * two inner loops are AddTexture and AddColumn.
   */
  method GenerateTerrainTexturesPalette(bgColor: Color, textures: seq<Raster>) returns (r: seq<Color>)
    requires AllValid(textures)
    ensures r == AddAll(RgbOnly, [bgColor], AllPixels(textures, |textures|))
    ensures |r| > 0 && r[0] == bgColor && Distinct(RgbOnly, r)
    ensures forall i, x: nat, y: nat :: 0 <= i < |textures| && x < textures[i].width && y < textures[i].height ==>
      HasMatch(RgbOnly, r, textures[i].At(x, y))
  {
    var colorPalette := new ColorPalette([bgColor]);
    AddTextures(colorPalette, textures);
    r := colorPalette.colors;
    GeneratedPalette(bgColor, textures);
  }

  /** The loop over the textures. */
  method AddTextures(colorPalette: ColorPalette, textures: seq<Raster>)
    requires AllValid(textures)
    modifies colorPalette
    ensures colorPalette.colors == AddAll(RgbOnly, old(colorPalette.colors), AllPixels(textures, |textures|))
  {
    ghost var initial := colorPalette.colors;
    var i := 0;
    while i < |textures|
      invariant i <= |textures|
      invariant colorPalette.colors == AddAll(RgbOnly, initial, AllPixels(textures, i))
    {
      AddTexture(colorPalette, textures[i]);
      ImageStep(initial, textures, i);
      i := i + 1;
    }
  }

  /** The loop over the columns of one texture. */
  method AddTexture(colorPalette: ColorPalette, texture: Raster)
    requires texture.Valid()
    modifies colorPalette
    ensures colorPalette.colors == AddAll(RgbOnly, old(colorPalette.colors), ImagePixels(texture, texture.width))
  {
    ghost var atImage := colorPalette.colors;
    var x := 0;
    while x < texture.width
      invariant x <= texture.width
      invariant colorPalette.colors == AddAll(RgbOnly, atImage, ImagePixels(texture, x))
    {
      AddColumn(colorPalette, texture, x);
      ColumnsStep(atImage, texture, x);
      x := x + 1;
    }
  }

  /** The loop over the rows of one column, adding each pixel not yet in the palette. */
  method AddColumn(colorPalette: ColorPalette, texture: Raster, x: nat)
    requires texture.Valid() && x < texture.width
    modifies colorPalette
    ensures colorPalette.colors == AddAll(RgbOnly, old(colorPalette.colors), ColumnPixels(texture, x, texture.height))
  {
    ghost var atColumn := colorPalette.colors;
    var y := 0;
    while y < texture.height
      invariant y <= texture.height
      invariant colorPalette.colors == AddAll(RgbOnly, atColumn, ColumnPixels(texture, x, y))
    {
      colorPalette.CheckAndAdd(RgbOnly, texture.At(x, y));
      PixelStep(atColumn, texture, x, y);
      y := y + 1;
    }
  }

  /**
   * The generated palette starts with the background colour, holds no two
   * RGB-equal entries, has an entry RGB-equal to every pixel of every image,
   * and its other entries are pixels of the images.
   */
  lemma GeneratedPalette(bgColor: Color, textures: seq<Raster>)
    requires AllValid(textures)
    ensures var r := AddAll(RgbOnly, [bgColor], AllPixels(textures, |textures|));
      |r| > 0 && r[0] == bgColor && Distinct(RgbOnly, r) &&
      (forall i, x: nat, y: nat :: 0 <= i < |textures| && x < textures[i].width && y < textures[i].height ==>
        HasMatch(RgbOnly, r, textures[i].At(x, y))) &&
      (forall k :: 1 <= k < |r| ==> exists i :: 0 <= i < |textures| && r[k] in textures[i].pixels)
  {
    var cs := AllPixels(textures, |textures|);
    var r := AddAll(RgbOnly, [bgColor], cs);
    AllPixelsCover(textures, |textures|);
    AddAllFacts(RgbOnly, [bgColor], cs);
    assert r[..1] == [bgColor];
    forall i, x: nat, y: nat | 0 <= i < |textures| && x < textures[i].width && y < textures[i].height
      ensures HasMatch(RgbOnly, r, textures[i].At(x, y))
    {
      assert textures[i].At(x, y) in cs;
      var k :| 0 <= k < |cs| && cs[k] == textures[i].At(x, y);
      assert HasMatch(RgbOnly, r, cs[k]);
    }
  }
}
