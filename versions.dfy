/**
 * How the versions relate. The later version compares colours on red,
 * green and blue only, the earlier two on all four channels. The image
 * depends on the comparison only through which pixels are masked, so on a
 * fully opaque source with an opaque mask (hexToRgb always yields alpha
 * 255) every version paints the same image.
 */
module Versions {
  import opened Colors
  import opened Pixels
  import opened Compositor
  import opened Texturing

  /** Two scenes that differ at most in the comparison and agree on every masked pixel. */
  predicate SameMasks(s1: Scene, s2: Scene) {
    s1.Valid() && s2.Valid() && s2 == s1.(cmp := s2.cmp) &&
    forall x: nat, y: nat :: x < s1.source.width && y < s1.source.height ==> IsMask(s1, x, y) == IsMask(s2, x, y)
  }

  lemma {:induction false} RunBelowSame(s1: Scene, s2: Scene, x: nat, y: nat)
    requires SameMasks(s1, s2) && x < s1.source.width && y < s1.source.height
    decreases s1.source.height - y
    ensures RunBelow(s1, x, y) == RunBelow(s2, x, y)
    ensures BelowCounter(s1, x, y) == BelowCounter(s2, x, y)
  {
    if y + 1 < s1.source.height && IsMask(s1, x, y + 1) {
      RunBelowSame(s1, s2, x, y + 1);
    }
  }

  lemma {:induction false} RunAboveSame(s1: Scene, s2: Scene, x: nat, y: nat)
    requires SameMasks(s1, s2) && x < s1.source.width && y < s1.source.height
    ensures RunAbove(s1, x, y) == RunAbove(s2, x, y)
  {
    if y > 0 && IsMask(s1, x, y - 1) {
      RunAboveSame(s1, s2, x, y - 1);
    }
  }

  /** Scenes that agree on the masked pixels paint every pixel alike. */
  lemma CompositedSame(s1: Scene, s2: Scene, x: nat, y: nat, prev: Color)
    requires SameMasks(s1, s2) && x < s1.source.width && y < s1.source.height
    ensures Composited(s1, x, y, prev) == Composited(s2, x, y, prev)
  {
    RunBelowSame(s1, s2, x, y);
    RunAboveSame(s1, s2, x, y);
  }

  lemma RenderSame(s1: Scene, s2: Scene, before: Raster)
    requires SameMasks(s1, s2) && before.Valid()
    requires before.width == s1.source.width && before.height == s1.source.height
    ensures Render(s1, before) == Render(s2, before)
  {
    forall x: nat, y: nat | x < before.width && y < before.height
      ensures Render(s1, before).At(x, y) == Render(s2, before).At(x, y)
    {
      RenderAt(s1, before, x, y);
      RenderAt(s2, before, x, y);
      CompositedSame(s1, s2, x, y, before.At(x, y));
    }
    RasterExt(Render(s1, before), Render(s2, before));
  }

  /** Every pixel of the raster is fully opaque. */
  predicate Opaque(src: Raster) {
    forall i :: 0 <= i < |src.pixels| ==> src.pixels[i].a == 255
  }

  /** On opaque colours the two comparisons agree. */
  lemma OpaqueMatches(a: Color, b: Color)
    requires a.a == 255 && b.a == 255
    ensures Matches(RgbOnly, a, b) <==> Matches(AllChannels, a, b)
  {
  }

  /**
   * On an opaque source and an opaque mask, comparing three channels or
   * four gives the same final image, whatever the padding and offsets.
   */
  lemma OpaqueVersionsAgree(src: Raster, texture: Raster, grass: Raster, mask: Color,
                            upper: bool, lower: bool, topOffset: nat, bottomOffset: nat)
    requires src.Valid() && texture.Valid() && grass.Valid()
    requires topOffset <= grass.height && bottomOffset <= grass.height
    requires Opaque(src) && mask.a == 255
    ensures FinalImage(src, texture, grass, mask, upper, lower, RgbOnly, topOffset, bottomOffset) ==
            FinalImage(src, texture, grass, mask, upper, lower, AllChannels, topOffset, bottomOffset)
  {
    if src.height == 0 {
      // Both images are empty; only the padding rows, which are transparent, could differ.
      return;
    }
    var s1 := SceneOf(src, texture, grass, mask, upper, lower, RgbOnly, topOffset, bottomOffset);
    var s2 := SceneOf(src, texture, grass, mask, upper, lower, AllChannels, topOffset, bottomOffset);
    forall x: nat, y: nat | x < s1.source.width && y < s1.source.height
      ensures IsMask(s1, x, y) == IsMask(s2, x, y)
    {
      ExtendedAt(src, HeightOffset(upper), RenderHeight(src.height, upper, lower), x, y);
      OpaqueMatches(s1.source.At(x, y), mask);
    }
    RenderSame(s1, s2, Canvas(src, upper, lower));
  }
}
