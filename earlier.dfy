/**
 * `texturize` as the earlier version has it. The canvas set-up, padding,
 * scans and crop are those of the later version; what differs is the
 * colour comparison (all four channels, nullable arguments) and the palette
 * preparation (the background colour, transparent black included, always
 * goes through the de-duplicating path of setFirstColorInPalette).
 */
module EarlierTexturizer {
  import opened Wrappers
  import opened Colors
  import opened Pixels
  import opened Palette
  import opened Compositor
  import opened Texturing
  import Texturizer

  /**
   * Preparing the palette fails: a palette is wanted, the background string
   * does not parse, and the terrain's palette is empty, so that the null
   * colour itself would become its first entry.
   */
  predicate BackgroundFails(seed: seq<Color>, convertOutput: bool, transparentBackground: bool, backgroundColor: string) {
    convertOutput && Texturizer.BackgroundOf(transparentBackground, backgroundColor).None? && |seed| == 0
  }

  /** The scene the earlier `texturize` scans: as the later one, with four-channel comparison. */
  function TexturizeScene(source: Raster, texture: Raster, grass: Raster, maskColorString: string,
                          upper: bool, lower: bool): (s: Scene)
    requires source.Valid() && texture.Valid() && grass.Valid()
    ensures s.Valid() && s.source == Padded(source, upper, lower) && s.cmp == AllChannels
  {
    SceneOf(source, texture, grass, Texturizer.MaskOf(maskColorString), upper, lower, AllChannels,
            TopOffset(grass), BottomOffset(grass))
  }

  /**
   * The palette once prepared. A parsed background colour is moved or put
   * to the front; a null one compares equal to the first entry, so a
   * non-empty palette is left as it is.
   */
  function PreparedPalette(seed: seq<Color>, convertOutput: bool, transparentBackground: bool,
                           backgroundColor: string): seq<Color>
  {
    var bg := Texturizer.BackgroundOf(transparentBackground, backgroundColor);
    if convertOutput && bg.Some? then PlaceFirst(AllChannels, seed, bg.value, false) else seed
  }

  /** The palette after a successful call that wants one. */
  function TexturizedPalette(seed: seq<Color>, transparentBackground: bool, backgroundColor: string, s: Scene): seq<Color>
    requires s.Valid()
  {
    AddAll(AllChannels, PreparedPalette(seed, true, transparentBackground, backgroundColor), ImageScan(s, s.source.width))
  }

  /**
   * setFirstColorInPalette(bgColor, colorPalette) when a palette is wanted.
   * A null background stops at index 0 of a non-empty palette, where
   * colorEqual(null, _) holds; on an empty palette it is unshifted, which
   * the model reports as a failure.
   */
  method PreparePalette(terrainPalette: ColorPalette, transparentBackground: bool, backgroundColor: string)
    returns (ok: bool)
    modifies terrainPalette
    ensures ok <==> !BackgroundFails(old(terrainPalette.colors), true, transparentBackground, backgroundColor)
    ensures terrainPalette.colors == PreparedPalette(old(terrainPalette.colors), true, transparentBackground, backgroundColor)
  {
    var bgColor := if transparentBackground then Some(Transparent) else HexToRgb(backgroundColor);
    if bgColor.Some? {
      terrainPalette.SetFirst(AllChannels, bgColor.value);
      return true;
    }
    ok := |terrainPalette.colors| > 0 && ColorEqualNullable(bgColor, Some(terrainPalette.colors[0])) == Some(true);
  }

  /**
   * The whole call. The set-up's getImageData calls throw on an empty
   * rectangle; a mask string that does not parse makes the first comparison
   * of the scans, at the bottom pixel of column 0, throw; and the inline crop
   * throws on a padded source with no rows, after the scans.
   */
  method Texturize(terrainPalette: ColorPalette, source: Raster, texture: Raster, grass: Raster,
                   maskColorString: string, upper: bool, lower: bool, convertOutput: bool,
                   transparentBackground: bool, backgroundColor: string)
    returns (r: Result<Texturizer.Output, Texturizer.TexturizeError>)
    requires source.Valid() && texture.Valid() && grass.Valid()
    modifies terrainPalette
    ensures r.Err? <==>
      Texturizer.SizeFails(source, texture, grass, upper, lower) ||
      BackgroundFails(old(terrainPalette.colors), convertOutput, transparentBackground, backgroundColor) ||
      Texturizer.MaskFails(maskColorString) || Texturizer.CropFails(source, upper, lower)
    ensures Texturizer.SizeFails(source, texture, grass, upper, lower) ==>
      r == Err(Texturizer.EmptyImage) && terrainPalette.colors == old(terrainPalette.colors)
    ensures !Texturizer.SizeFails(source, texture, grass, upper, lower) &&
            BackgroundFails(old(terrainPalette.colors), convertOutput, transparentBackground, backgroundColor) ==>
      r == Err(Texturizer.BackgroundColorUnparsable) && terrainPalette.colors == old(terrainPalette.colors)
    ensures !Texturizer.SizeFails(source, texture, grass, upper, lower) &&
            !BackgroundFails(old(terrainPalette.colors), convertOutput, transparentBackground, backgroundColor) &&
            Texturizer.MaskFails(maskColorString) ==>
      r == Err(Texturizer.MaskColorUnparsable) &&
      terrainPalette.colors == PreparedPalette(old(terrainPalette.colors), convertOutput, transparentBackground, backgroundColor)
    ensures !Texturizer.SizeFails(source, texture, grass, upper, lower) &&
            !BackgroundFails(old(terrainPalette.colors), convertOutput, transparentBackground, backgroundColor) &&
            !Texturizer.MaskFails(maskColorString) && Texturizer.CropFails(source, upper, lower) ==>
      r == Err(Texturizer.EmptyImage) &&
      (convertOutput ==>
        terrainPalette.colors ==
          TexturizedPalette(old(terrainPalette.colors), transparentBackground, backgroundColor,
            TexturizeScene(source, texture, grass, maskColorString, upper, lower)))
    ensures r.Ok? ==>
      (r.value.image ==
       FinalImage(source, texture, grass, Texturizer.MaskOf(maskColorString), upper, lower, AllChannels,
                  TopOffset(grass), BottomOffset(grass)))
    ensures r.Ok? && convertOutput ==>
      r.value.palette == terrainPalette.colors ==
        TexturizedPalette(old(terrainPalette.colors), transparentBackground, backgroundColor,
          TexturizeScene(source, texture, grass, maskColorString, upper, lower))
    ensures !convertOutput ==> terrainPalette.colors == old(terrainPalette.colors)
    ensures r.Ok? && !convertOutput ==> r.value.palette == []
  {
    var maskColor := HexToRgb(maskColorString);
    var originalHeight := source.height;
    var renderHeight := RenderHeight(originalHeight, upper, lower);
    if source.width == 0 || renderHeight == 0 || texture.width == 0 || texture.height == 0 || grass.height == 0 {
      return Err(Texturizer.EmptyImage);
    }
    ghost var seed := terrainPalette.colors;
    var imageData, newImageData, grassTopImageData, grassBottomImageData, grassTopOffset, grassBottomOffset :=
      Texturizer.SetUp(source, grass, upper, lower);

    if convertOutput {
      var ok := PreparePalette(terrainPalette, transparentBackground, backgroundColor);
      if !ok {
        return Err(Texturizer.BackgroundColorUnparsable);
      }
    }
    assert terrainPalette.colors == PreparedPalette(seed, convertOutput, transparentBackground, backgroundColor);

    if ColorEqualNullable(Some(imageData.GetPixel(0, renderHeight - 1)), maskColor).None? {
      return Err(Texturizer.MaskColorUnparsable);
    }

    var s := Scene(imageData.Snapshot(), texture, grassTopImageData, grassBottomImageData,
                   grassTopOffset, grassBottomOffset, maskColor.GetOr(Transparent), AllChannels);
    assert s == TexturizeScene(source, texture, grass, maskColorString, upper, lower);
    r := Texturizer.ScanAndCrop(terrainPalette, convertOutput, s, newImageData, originalHeight, upper, lower);
  }

  // ---------------------------------------------------------------------
  // What the returned palette holds

  /**
   * With four-channel comparison the palette starts with the background
   * colour itself (or, for a null one, is the seed followed by the scans'
   * additions), keeps every seed entry, adds only non-mask colours, and is
   * duplicate-free whenever the seed is.
   */
  lemma TexturizedPaletteStart(seed: seq<Color>, s: Scene, transparentBackground: bool, backgroundColor: string)
    requires s.Valid() && s.cmp == AllChannels
    requires !BackgroundFails(seed, true, transparentBackground, backgroundColor)
    ensures var bg, p := Texturizer.BackgroundOf(transparentBackground, backgroundColor),
                         PreparedPalette(seed, true, transparentBackground, backgroundColor);
      var r := TexturizedPalette(seed, transparentBackground, backgroundColor, s);
      |r| >= |p| > 0 && r[..|p|] == p &&
      (bg.Some? ==> r[0] == bg.value) &&
      (bg.None? ==> r[..|seed|] == seed) &&
      (forall e :: e in seed ==> e in r) &&
      (forall k :: |p| <= k < |r| ==> r[k] != s.mask) &&
      (Distinct(AllChannels, seed) ==> Distinct(AllChannels, r))
  {
    var bg := Texturizer.BackgroundOf(transparentBackground, backgroundColor);
    var p := PreparedPalette(seed, true, transparentBackground, backgroundColor);
    var r := TexturizedPalette(seed, transparentBackground, backgroundColor, s);
    PaletteAfterScans(s, p);
    assert r[..|p|] == p;
    if bg.Some? {
      MatchesIsEquivalence(AllChannels, bg.value, r[0], r[0]);
      forall e | e in seed ensures e in r {
        if e == bg.value {
          assert r[0] == e;
        } else {
          MatchesIsEquivalence(AllChannels, bg.value, e, e);
          var i :| 0 <= i < |p| && p[i] == e;
          assert r[i] == e;
        }
      }
      if Distinct(AllChannels, seed) {
        PlaceFirstKeepsDistinct(AllChannels, seed, bg.value);
      }
    } else {
      forall e | e in seed ensures e in r {
        var i :| 0 <= i < |seed| && seed[i] == e;
        assert r[i] == e;
      }
    }
    forall k | |p| <= k < |r| ensures r[k] != s.mask {
      MatchesIsEquivalence(AllChannels, r[k], s.mask, s.mask);
    }
  }

  /** Every source pixel that is not the mask colour is itself an entry of the palette. */
  lemma TexturizedPaletteCovers(seed: seq<Color>, source: Raster, texture: Raster, grass: Raster,
                                maskColorString: string, upper: bool, lower: bool,
                                transparentBackground: bool, backgroundColor: string, x: nat, y: nat)
    requires source.Valid() && texture.Valid() && grass.Valid()
    requires x < source.width && y < source.height
    requires source.At(x, y) != Texturizer.MaskOf(maskColorString)
    ensures source.At(x, y) in TexturizedPalette(seed, transparentBackground, backgroundColor,
      TexturizeScene(source, texture, grass, maskColorString, upper, lower))
  {
    var s := TexturizeScene(source, texture, grass, maskColorString, upper, lower);
    var r := TexturizedPalette(seed, transparentBackground, backgroundColor, s);
    PaddedSourceRow(source, upper, lower, x, y);
    MatchesIsEquivalence(AllChannels, source.At(x, y), s.mask, s.mask);
    assert !IsMask(s, x, y + HeightOffset(upper));
    PaletteAfterScans(s, PreparedPalette(seed, true, transparentBackground, backgroundColor));
    var k :| 0 <= k < |r| && Matches(AllChannels, source.At(x, y), r[k]);
    MatchesIsEquivalence(AllChannels, source.At(x, y), r[k], r[k]);
  }

  /**
   * Unlike the later version, repeated calls with a transparent background
   * keep a duplicate-free palette duplicate-free, with transparent black
   * as its only first entry.
   */
  lemma RepeatedTransparentCalls(seed: seq<Color>, s1: Scene, s2: Scene, backgroundColor: string)
    requires s1.Valid() && s2.Valid() && s1.cmp == AllChannels && s2.cmp == AllChannels
    requires Distinct(AllChannels, seed)
    ensures var r := TexturizedPalette(TexturizedPalette(seed, true, backgroundColor, s1), true, backgroundColor, s2);
      |r| > 0 && r[0] == Transparent && Distinct(AllChannels, r) &&
      (forall k :: 0 < k < |r| ==> r[k] != Transparent)
  {
    var r1 := TexturizedPalette(seed, true, backgroundColor, s1);
    var r := TexturizedPalette(r1, true, backgroundColor, s2);
    TexturizedPaletteStart(seed, s1, true, backgroundColor);
    TexturizedPaletteStart(r1, s2, true, backgroundColor);
    forall k | 0 < k < |r| ensures r[k] != Transparent {
      assert !Matches(AllChannels, r[0], r[k]);
    }
  }
}
