/**
 * The map size arithmetic of `resize`: Worms: Armageddon maps are at least
 * 640×32 pixels and have both sides a multiple of 8.
 */
module Dimensions {

  const MinMapWidth: nat := 640
  const MinMapHeight: nat := 32

  /** findNextValidDimension: count up from n until a multiple of 8. */
  method FindNextValidDimension(n: nat) returns (r: nat)
    ensures r % 8 == 0 && n <= r < n + 8
    ensures forall m :: n <= m < r ==> m % 8 != 0
    ensures n % 8 == 0 ==> r == n
  {
    r := n;
    while r % 8 != 0
      invariant n <= r <= n + (8 - n % 8) % 8
      invariant forall m :: n <= m < r ==> m % 8 != 0
      decreases n + 8 - r
    {
      r := r + 1;
    }
  }

  /**
   * The canvas size `resize` picks for an image of w×h: each side is kept
   * at its minimum when the image does not exceed it, and rounded up to a
   * multiple of 8 otherwise. `dy` is how far the image is moved down so it
   * sits on the bottom edge.
   */
  method ResizeDimensions(w: nat, h: nat) returns (width: nat, height: nat, dy: int)
    ensures w <= MinMapWidth ==> width == MinMapWidth
    ensures h <= MinMapHeight ==> height == MinMapHeight
    ensures w <= width && h <= height && dy == height - h && dy >= 0
    ensures width % 8 == 0 && height % 8 == 0
    ensures w > MinMapWidth ==> width < w + 8
    ensures h > MinMapHeight ==> height < h + 8
    ensures width >= MinMapWidth && height >= MinMapHeight
  {
    if w > MinMapWidth {
      width := FindNextValidDimension(w);
    } else {
      width := MinMapWidth;
    }
    if h > MinMapHeight {
      height := FindNextValidDimension(h);
    } else {
      height := MinMapHeight;
    }
    dy := height - h;
  }
}
