/**
 * `texturize` as the later version has it: the canvas set-up, the grass
 * offsets, the padding, the preparation of the terrain's shared palette,
 * both scans and the final crop, with the two ways the call can fail.
 */
module Texturizer {
  import opened Wrappers
  import opened Colors
  import opened Pixels
  import opened Palette
  import opened Compositor
  import opened Texturing

  /**
   * The errors `texturize` can raise: getImageData throws an IndexSizeError
   * on a rectangle with no pixels; a background colour that is not a hex
   * colour is dereferenced while the palette is prepared, and a mask colour
   * that is not one is dereferenced by the first pixel comparison (both
   * TypeErrors).
   */
  datatype TexturizeError = EmptyImage | BackgroundColorUnparsable | MaskColorUnparsable

  /** What the canvas shows at the end, and the palette `texturize` returns. */
  datatype Output = Output(image: Raster, palette: seq<Color>)

  /**
   * The colour the scans compare against. An unparsable mask string fails
   * at the first comparison, so when there is none the stand-in is never
   * read.
   */
  function MaskOf(maskColorString: string): Color {
    HexToRgb(maskColorString).GetOr(Transparent)
  }

  /** The colour placed first in the palette: transparent black or the background colour. */
  function BackgroundOf(transparentBackground: bool, backgroundColor: string): Option<Color> {
    if transparentBackground then Some(Transparent) else HexToRgb(backgroundColor)
  }

  /** Preparing the palette fails: it is wanted, opaque, and the background string does not parse. */
  predicate BackgroundFails(convertOutput: bool, transparentBackground: bool, backgroundColor: string) {
    convertOutput && BackgroundOf(transparentBackground, backgroundColor).None?
  }

  /**
   * The set-up reads an empty rectangle: the canvas the source is drawn on
   * has no columns or no rows, the texture has no pixels, or the grass image
   * has no rows (each strip is 64 columns wide whatever the image's width).
   */
  predicate SizeFails(source: Raster, texture: Raster, grass: Raster, upper: bool, lower: bool) {
    source.width == 0 || RenderHeight(source.height, upper, lower) == 0 ||
    texture.width == 0 || texture.height == 0 || grass.height == 0
  }

  /** The scans fail: the mask does not parse, and the first comparison dereferences it. */
  predicate MaskFails(maskColorString: string) {
    HexToRgb(maskColorString).None?
  }

  /** The final crop reads an empty rectangle: a border was padded around a source with no rows. */
  predicate CropFails(source: Raster, upper: bool, lower: bool) {
    (upper || lower) && source.height == 0
  }

  /** The scene `texturize` scans: the padded source, RGB comparison and the measured grass offsets. */
  function TexturizeScene(source: Raster, texture: Raster, grass: Raster, maskColorString: string,
                          upper: bool, lower: bool): (s: Scene)
    requires source.Valid() && texture.Valid() && grass.Valid()
    ensures s.Valid() && s.source == Padded(source, upper, lower) && s.cmp == RgbOnly
  {
    SceneOf(source, texture, grass, MaskOf(maskColorString), upper, lower, RgbOnly, TopOffset(grass), BottomOffset(grass))
  }

  /** The palette once prepared: made to start with the background colour when a palette is wanted. */
  function PreparedPalette(seed: seq<Color>, convertOutput: bool, transparentBackground: bool,
                           backgroundColor: string): seq<Color>
  {
    if convertOutput then
      PlaceFirst(RgbOnly, seed, BackgroundOf(transparentBackground, backgroundColor).GetOr(Transparent), transparentBackground)
    else seed
  }

  /** The palette after a successful call that wants one: the prepared seed, then the scans' additions. */
  function TexturizedPalette(seed: seq<Color>, transparentBackground: bool, backgroundColor: string, s: Scene): seq<Color>
    requires s.Valid()
  {
    AddAll(RgbOnly, PreparedPalette(seed, true, transparentBackground, backgroundColor), ImageScan(s, s.source.width))
  }

  /**
   * The canvas set-up of `texturize`: the two copies of the resized canvas
   * with the source drawn at heightOffset, the grass strips and their
   * offsets, and the padding of `imageData`.
   */
  method SetUp(source: Raster, grass: Raster, upper: bool, lower: bool)
    returns (imageData: ImageData, newImageData: ImageData, grassTopImageData: Raster, grassBottomImageData: Raster,
             grassTopOffset: nat, grassBottomOffset: nat)
    requires source.Valid() && grass.Valid()
    requires source.width > 0 && RenderHeight(source.height, upper, lower) > 0 && grass.height > 0
    ensures fresh(newImageData) && fresh(newImageData.data)
    ensures imageData.Valid() && newImageData.Valid()
    ensures imageData.Snapshot() == Padded(source, upper, lower)
    ensures newImageData.Snapshot() == Canvas(source, upper, lower)
    ensures grassTopImageData == Strip(grass, 0) && grassBottomImageData == Strip(grass, GrassWidth)
    ensures grassTopOffset == TopOffset(grass) && grassBottomOffset == BottomOffset(grass)
  {
    var renderHeight := RenderHeight(source.height, upper, lower);
    var canvas := Canvas(source, upper, lower);
    imageData := new ImageData(source.width, renderHeight, canvas.pixels);
    newImageData := new ImageData(source.width, renderHeight, canvas.pixels);
    grassTopImageData := Strip(grass, 0);
    grassBottomImageData := Strip(grass, GrassWidth);
    grassTopOffset := GrassTopOffset(grassTopImageData);
    grassBottomOffset := GrassBottomOffset(grassBottomImageData);
    Pad(imageData, source, upper, lower);
  }

  /**
   * The palette preparation when a palette is wanted: transparent black
   * put first unchecked, or the background colour put first; an
   * unparsable background fails before the palette is touched.
   */
  method PreparePalette(terrainPalette: ColorPalette, transparentBackground: bool, backgroundColor: string)
    returns (ok: bool)
    modifies terrainPalette
    ensures ok <==> BackgroundOf(transparentBackground, backgroundColor).Some?
    ensures terrainPalette.colors ==
      if ok then PreparedPalette(old(terrainPalette.colors), true, transparentBackground, backgroundColor)
      else old(terrainPalette.colors)
  {
    if transparentBackground {
      terrainPalette.SetFirst(RgbOnly, Transparent, true);
    } else {
      var bg := HexToRgb(backgroundColor);
      if bg.None? {
        return false;
      }
      terrainPalette.SetFirst(RgbOnly, bg.value);
    }
    ok := true;
  }

  /**
   * The whole call. The terrain's palette is the object `texturize` takes
   * out of the pre-computed table and updates in place; it is changed only
   * when a palette is wanted. The failures come in the source's order: the
   * set-up, the palette preparation, the scans, and the crop, which runs
   * after the scans have extended the palette.
   */
  method Texturize(terrainPalette: ColorPalette, source: Raster, texture: Raster, grass: Raster,
                   maskColorString: string, upper: bool, lower: bool, convertOutput: bool,
                   transparentBackground: bool, backgroundColor: string) returns (r: Result<Output, TexturizeError>)
    requires source.Valid() && texture.Valid() && grass.Valid()
    modifies terrainPalette
    ensures r.Err? <==>
      SizeFails(source, texture, grass, upper, lower) ||
      BackgroundFails(convertOutput, transparentBackground, backgroundColor) ||
      MaskFails(maskColorString) || CropFails(source, upper, lower)
    ensures SizeFails(source, texture, grass, upper, lower) ==>
      r == Err(EmptyImage) && terrainPalette.colors == old(terrainPalette.colors)
    ensures !SizeFails(source, texture, grass, upper, lower) &&
            BackgroundFails(convertOutput, transparentBackground, backgroundColor) ==>
      r == Err(BackgroundColorUnparsable) && terrainPalette.colors == old(terrainPalette.colors)
    ensures !SizeFails(source, texture, grass, upper, lower) &&
            !BackgroundFails(convertOutput, transparentBackground, backgroundColor) && MaskFails(maskColorString) ==>
      r == Err(MaskColorUnparsable) &&
      terrainPalette.colors == PreparedPalette(old(terrainPalette.colors), convertOutput, transparentBackground, backgroundColor)
    ensures !SizeFails(source, texture, grass, upper, lower) &&
            !BackgroundFails(convertOutput, transparentBackground, backgroundColor) && !MaskFails(maskColorString) &&
            CropFails(source, upper, lower) ==>
      r == Err(EmptyImage) &&
      (convertOutput ==>
        terrainPalette.colors ==
          TexturizedPalette(old(terrainPalette.colors), transparentBackground, backgroundColor,
            TexturizeScene(source, texture, grass, maskColorString, upper, lower)))
    ensures r.Ok? ==>
      r.value.image ==
        FinalImage(source, texture, grass, MaskOf(maskColorString), upper, lower, RgbOnly, TopOffset(grass), BottomOffset(grass))
    ensures r.Ok? && convertOutput ==>
      r.value.palette == terrainPalette.colors ==
        TexturizedPalette(old(terrainPalette.colors), transparentBackground, backgroundColor,
          TexturizeScene(source, texture, grass, maskColorString, upper, lower))
    ensures !convertOutput ==> terrainPalette.colors == old(terrainPalette.colors)
    ensures r.Ok? && !convertOutput ==> r.value.palette == []
  {
    var maskColor := HexToRgb(maskColorString);
    var originalHeight := source.height;
    var renderHeight := RenderHeight(originalHeight, upper, lower);
    if source.width == 0 || renderHeight == 0 || texture.width == 0 || texture.height == 0 || grass.height == 0 {
      return Err(EmptyImage);
    }
    ghost var seed := terrainPalette.colors;
    var imageData, newImageData, grassTopImageData, grassBottomImageData, grassTopOffset, grassBottomOffset :=
      SetUp(source, grass, upper, lower);

    if convertOutput {
      var ok := PreparePalette(terrainPalette, transparentBackground, backgroundColor);
      if !ok {
        return Err(BackgroundColorUnparsable);
      }
    }
    assert terrainPalette.colors == PreparedPalette(seed, convertOutput, transparentBackground, backgroundColor);

    if maskColor.None? {
      return Err(MaskColorUnparsable);
    }

    var s := Scene(imageData.Snapshot(), texture, grassTopImageData, grassBottomImageData,
                   grassTopOffset, grassBottomOffset, maskColor.GetOr(Transparent), RgbOnly);
    assert s == TexturizeScene(source, texture, grass, maskColorString, upper, lower);
    r := ScanAndCrop(terrainPalette, convertOutput, s, newImageData, originalHeight, upper, lower);
  }

  /**
   * The scans over the padded canvas, putImageData, and cropCanvas back to
   * the source's rows when a border was padded, which throws when there
   * are none (the earlier version crops inline, to the same effect). The
   * scans extend the palette when one is wanted, so a failed crop leaves it
   * extended.
   */
  method ScanAndCrop(terrainPalette: ColorPalette, convertOutput: bool, s: Scene, newImageData: ImageData,
                     originalHeight: nat, upper: bool, lower: bool) returns (r: Result<Output, TexturizeError>)
    requires s.Valid() && newImageData.Valid()
    requires newImageData.width == s.source.width && newImageData.height == s.source.height
    requires s.source.height == RenderHeight(originalHeight, upper, lower)
    modifies newImageData.data, terrainPalette
    ensures r.Err? <==> (upper || lower) && originalHeight == 0
    ensures r.Err? ==> r == Err(EmptyImage)
    ensures terrainPalette.colors ==
      if convertOutput then AddAll(s.cmp, old(terrainPalette.colors), ImageScan(s, s.source.width))
      else old(terrainPalette.colors)
    ensures r.Ok? ==>
      r.value.image == Finish(Render(s, old(newImageData.Snapshot())), HeightOffset(upper), originalHeight, upper || lower)
    ensures r.Ok? ==> r.value.palette == if convertOutput then terrainPalette.colors else []
  {
    var colorPalette: ColorPalette? := if convertOutput then terrainPalette else null;
    Composite(s, newImageData, colorPalette);

    // putImageData, and cropCanvas when a border was padded
    var image := newImageData.Snapshot();
    if upper || lower {
      if originalHeight == 0 {
        return Err(EmptyImage);
      }
      image := CropRows(image, HeightOffset(upper), originalHeight);
    }
    r := Ok(Output(image, if convertOutput then terrainPalette.colors else []));
  }

  // ---------------------------------------------------------------------
  // What the returned palette holds

  /**
   * The palette starts with an entry RGB-equal to the background colour
   * (transparent black itself when the background is transparent), keeps
   * the prepared seed as its prefix and every seed entry the background
   * does not replace, and stays duplicate-free when the seed is and the
   * background entry is not a second copy.
   */
  lemma TexturizedPaletteStart(seed: seq<Color>, s: Scene, transparentBackground: bool, backgroundColor: string)
    requires s.Valid() && s.cmp == RgbOnly
    requires BackgroundOf(transparentBackground, backgroundColor).Some?
    ensures var bg, p := BackgroundOf(transparentBackground, backgroundColor).value,
                         PreparedPalette(seed, true, transparentBackground, backgroundColor);
      var r := TexturizedPalette(seed, transparentBackground, backgroundColor, s);
      |r| >= |p| > 0 && r[..|p|] == p && Matches(RgbOnly, bg, r[0]) &&
      (transparentBackground ==> r[0] == Transparent) &&
      (forall e :: e in seed && (transparentBackground || !Matches(RgbOnly, bg, e)) ==> e in r) &&
      (forall k :: |p| <= k < |r| ==> !Matches(RgbOnly, r[k], s.mask)) &&
      (Distinct(RgbOnly, seed) && (transparentBackground ==> !HasMatch(RgbOnly, seed, Transparent)) ==>
        Distinct(RgbOnly, r))
  {
    var bg := BackgroundOf(transparentBackground, backgroundColor).value;
    var p := PreparedPalette(seed, true, transparentBackground, backgroundColor);
    var r := TexturizedPalette(seed, transparentBackground, backgroundColor, s);
    PreparedPaletteStart(seed, transparentBackground, backgroundColor);
    PaletteAfterScans(s, p);
    assert r[0] == p[0] by { assert r[..|p|] == p; }
    forall e | e in seed && (transparentBackground || !Matches(RgbOnly, bg, e)) ensures e in r {
      var i :| 0 <= i < |p| && p[i] == e;
      assert r[i] == e by { assert r[..|p|] == p; }
    }
  }

  /** The same facts about the palette as prepared, before the scans add to it. */
  lemma PreparedPaletteStart(seed: seq<Color>, transparentBackground: bool, backgroundColor: string)
    requires BackgroundOf(transparentBackground, backgroundColor).Some?
    ensures var bg, p := BackgroundOf(transparentBackground, backgroundColor).value,
                         PreparedPalette(seed, true, transparentBackground, backgroundColor);
      |p| > 0 && Matches(RgbOnly, bg, p[0]) &&
      (transparentBackground ==> p[0] == Transparent) &&
      (forall e :: e in seed && (transparentBackground || !Matches(RgbOnly, bg, e)) ==> e in p) &&
      (Distinct(RgbOnly, seed) && (transparentBackground ==> !HasMatch(RgbOnly, seed, Transparent)) ==>
        Distinct(RgbOnly, p))
  {
    var bg := BackgroundOf(transparentBackground, backgroundColor).value;
    var p := PreparedPalette(seed, true, transparentBackground, backgroundColor);
    if transparentBackground {
      assert p == [Transparent] + seed;
      forall e | e in seed ensures e in p {
        var j :| 0 <= j < |seed| && seed[j] == e;
        assert p[j + 1] == e;
      }
      if Distinct(RgbOnly, seed) {
        PlaceFirstSkipDistinct(RgbOnly, seed, bg);
      }
    } else if Distinct(RgbOnly, seed) {
      PlaceFirstKeepsDistinct(RgbOnly, seed, bg);
    }
  }

  /**
   * Every source pixel that is not the mask colour has an RGB-equal entry
   * in the palette of a successful call.
   */
  lemma TexturizedPaletteCovers(seed: seq<Color>, source: Raster, texture: Raster, grass: Raster,
                                maskColorString: string, upper: bool, lower: bool,
                                transparentBackground: bool, backgroundColor: string, x: nat, y: nat)
    requires source.Valid() && texture.Valid() && grass.Valid()
    requires x < source.width && y < source.height
    requires !Matches(RgbOnly, source.At(x, y), MaskOf(maskColorString))
    ensures HasMatch(RgbOnly, TexturizedPalette(seed, transparentBackground, backgroundColor,
      TexturizeScene(source, texture, grass, maskColorString, upper, lower)), source.At(x, y))
  {
    var s := TexturizeScene(source, texture, grass, maskColorString, upper, lower);
    PaddedSourceRow(source, upper, lower, x, y);
    PaletteAfterScans(s, PreparedPalette(seed, true, transparentBackground, backgroundColor));
    assert !IsMask(s, x, y + HeightOffset(upper));
  }

  /**
   * The terrain's palette is shared between calls and a transparent
   * background is put in front without a check, so a second call with a
   * transparent background leaves transparent black at index 0 and 1: the
   * palette is no longer duplicate-free.
   */
  lemma RepeatedTransparentCalls(seed: seq<Color>, s1: Scene, s2: Scene, backgroundColor: string)
    requires s1.Valid() && s2.Valid()
    ensures var r := TexturizedPalette(TexturizedPalette(seed, true, backgroundColor, s1), true, backgroundColor, s2);
      |r| >= 2 && r[0] == Transparent && r[1] == Transparent && !Distinct(RgbOnly, r)
  {
    var r1 := TexturizedPalette(seed, true, backgroundColor, s1);
    var p1 := PreparedPalette(seed, true, true, backgroundColor);
    var p2 := PreparedPalette(r1, true, true, backgroundColor);
    var r := TexturizedPalette(r1, true, backgroundColor, s2);
    PaletteAfterScans(s1, p1);
    PaletteAfterScans(s2, p2);
    assert r1[0] == p1[0] == Transparent;
    assert r[0] == p2[0] && r[1] == p2[1] == r1[0];
    MatchesIsEquivalence(RgbOnly, Transparent, Transparent, Transparent);
  }
}
