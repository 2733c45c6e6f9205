/**
 * `texturize` as the first version of the page has it: no border padding,
 * no palette, a mask colour handed in already parsed (possibly null), and
 * four-channel comparison. The result is what the canvas shows.
 */
module OriginalTexturizer {
  import opened Wrappers
  import opened Colors
  import opened Pixels
  import opened Compositor
  import opened Texturing
  import Texturizer

  /** With no border padded, the drawn canvas and the copy the scans read are the source itself. */
  lemma UnpaddedIsSource(src: Raster)
    requires src.Valid()
    ensures Canvas(src, false, false) == src && Padded(src, false, false) == src
  {
    forall x: nat, y: nat | x < src.width && y < src.height
      ensures Canvas(src, false, false).At(x, y) == src.At(x, y)
      ensures Padded(src, false, false).At(x, y) == src.At(x, y)
    {
      ShiftedAt(src, 0, src.height, x, y);
      ExtendedAt(src, 0, src.height, x, y);
    }
    RasterExt(Canvas(src, false, false), src);
    RasterExt(Padded(src, false, false), src);
  }

  /**
   * The whole call: the canvas takes the source's size, both ImageData
   * copies are the source, the grass offsets are measured, and both scans
   * run over every column. getImageData throws on an empty source, texture
   * or grass image; a null mask makes the first comparison, at the bottom
   * pixel of column 0, throw.
   */
  method Texturize(source: Raster, texture: Raster, grass: Raster, maskColor: Option<Color>)
    returns (r: Result<Raster, Texturizer.TexturizeError>)
    requires source.Valid() && texture.Valid() && grass.Valid()
    ensures r.Err? <==> Texturizer.SizeFails(source, texture, grass, false, false) || maskColor.None?
    ensures Texturizer.SizeFails(source, texture, grass, false, false) ==> r == Err(Texturizer.EmptyImage)
    ensures !Texturizer.SizeFails(source, texture, grass, false, false) && maskColor.None? ==>
      r == Err(Texturizer.MaskColorUnparsable)
    ensures r.Ok? ==>
      (r.value ==
       FinalImage(source, texture, grass, maskColor.GetOr(Transparent), false, false, AllChannels,
                  TopOffset(grass), BottomOffset(grass)))
  {
    if source.width == 0 || source.height == 0 || texture.width == 0 || texture.height == 0 || grass.height == 0 {
      return Err(Texturizer.EmptyImage);
    }
    var imageData := new ImageData(source.width, source.height, source.pixels);
    var newImageData := new ImageData(source.width, source.height, source.pixels);
    var grassTopImageData := Strip(grass, 0);
    var grassBottomImageData := Strip(grass, GrassWidth);
    var grassTopOffset := GrassTopOffset(grassTopImageData);
    var grassBottomOffset := GrassBottomOffset(grassBottomImageData);

    if ColorEqualNullable(Some(imageData.GetPixel(0, source.height - 1)), maskColor).None? {
      return Err(Texturizer.MaskColorUnparsable);
    }

    UnpaddedIsSource(source);
    var s := Scene(imageData.Snapshot(), texture, grassTopImageData, grassBottomImageData,
                   grassTopOffset, grassBottomOffset, maskColor.GetOr(Transparent), AllChannels);
    Composite(s, newImageData, null);
    r := Ok(newImageData.Snapshot());
  }
}
