/**
 * Row-major RGBA pixel buffers: the pixel index `y * width + x`, the value
 * view of a buffer (`Raster`, read by getPixel and getPixelRow), the mutable
 * canvas buffer (`ImageData`, written by setPixel and setPixelRow), the
 * rectangle read of getImageData/drawImage, and the byte layout behind it all.
 */
module Pixels {
  import opened Colors

  // ---------------------------------------------------------------------
  // Pixel index arithmetic

  /**
   * The row-major pixel index of (x, y), `y * width + x`. It is written as a
   * recursion over the rows so that the solver only meets the product where
   * IdxFormula is called.
   */
  function Idx(w: nat, x: nat, y: nat): nat {
    if y == 0 then x else Idx(w, x, y - 1) + w
  }

  lemma {:induction false} IdxFormula(w: nat, x: nat, y: nat)
    ensures Idx(w, x, y) == y * w + x
  {
    if y > 0 {
      IdxFormula(w, x, y - 1);
      assert y * w == (y - 1) * w + w;
    }
  }

  lemma MulMonotone(a: nat, b: nat, w: nat)
    requires a <= b
    ensures a * w <= b * w
  {
    assert b * w == a * w + (b - a) * w;
  }

  /**
   * The number of pixels of a w×h buffer, `w * h`, by repeated addition, so
   * that the product only appears where AreaFormula is called.
   */
  function Area(w: nat, h: nat): nat {
    if h == 0 then 0 else Area(w, h - 1) + w
  }

  lemma {:induction false} AreaFormula(w: nat, h: nat)
    ensures Area(w, h) == w * h
  {
    if h > 0 {
      AreaFormula(w, h - 1);
      assert w * h == w * (h - 1) + w;
    }
  }

  lemma IdxInRange(w: nat, h: nat, x: nat, y: nat)
    requires x < w && y < h
    ensures Idx(w, x, y) < Area(w, h)
  {
    AreaFormula(w, h);
    IdxFormula(w, x, y);
    MulMonotone(y + 1, h, w);
    assert (y + 1) * w == y * w + w;
  }

  /** Distinct coordinates inside the row width have distinct indices. */
  lemma {:induction false} IdxInjective(w: nat, x1: nat, y1: nat, x2: nat, y2: nat)
    requires x1 < w && x2 < w
    requires Idx(w, x1, y1) == Idx(w, x2, y2)
    ensures x1 == x2 && y1 == y2
  {
    if y1 > 0 && y2 > 0 {
      IdxInjective(w, x1, y1 - 1, x2, y2 - 1);
    } else if y1 > 0 {
      IdxLowerBound(w, x1, y1);
    } else if y2 > 0 {
      IdxLowerBound(w, x2, y2);
    }
  }

  lemma {:induction false} IdxLowerBound(w: nat, x: nat, y: nat)
    requires y > 0
    ensures Idx(w, x, y) >= w
  {
    if y > 1 {
      IdxLowerBound(w, x, y - 1);
    }
  }

  /** The column of pixel index i in a w-wide buffer, `i % w`, by repeated subtraction. */
  function ColumnOf(w: nat, i: nat): nat
    requires w > 0
    decreases i
  {
    if i < w then i else ColumnOf(w, i - w)
  }

  /** The row of pixel index i in a w-wide buffer, `i / w`, by repeated subtraction. */
  function RowOf(w: nat, i: nat): nat
    requires w > 0
    decreases i
  {
    if i < w then 0 else RowOf(w, i - w) + 1
  }

  /** Every index of a w×h buffer is the index of the (x, y) it names. */
  lemma {:induction false} IdxCoords(w: nat, h: nat, i: nat)
    requires i < Area(w, h)
    ensures w > 0 && ColumnOf(w, i) < w && RowOf(w, i) < h && Idx(w, ColumnOf(w, i), RowOf(w, i)) == i
    decreases i
  {
    AreaFormula(w, h);
    assert w > 0 && h > 0;
    if i >= w {
      IdxCoords(w, h - 1, i - w);
    }
  }

  /** ... and the (x, y) of an index is the one it was made from. */
  lemma {:induction false} CoordsOfIdx(w: nat, x: nat, y: nat)
    requires x < w
    ensures ColumnOf(w, Idx(w, x, y)) == x && RowOf(w, Idx(w, x, y)) == y
  {
    if y > 0 {
      CoordsOfIdx(w, x, y - 1);
    }
  }

  /** Row y + d starts d rows (d * w pixels) after row y. */
  lemma {:induction false} IdxShift(w: nat, x: nat, y: nat, d: nat)
    ensures Idx(w, x, y + d) == Idx(w, 0, d) + Idx(w, x, y)
  {
    if d > 0 {
      IdxShift(w, x, y, d - 1);
      assert Idx(w, 0, d) == Idx(w, 0, d - 1) + w;
    }
  }

  // ---------------------------------------------------------------------
  // Value view of a buffer

  /** An ImageData as a value: width, height and the pixels row by row. */
  datatype Raster = Raster(width: nat, height: nat, pixels: seq<Color>) {
    predicate Valid() {
      |pixels| == Area(width, height)
    }

    /** getPixel: the colour stored for (x, y). */
    function At(x: nat, y: nat): (c: Color)
      requires Valid() && x < width && y < height
      ensures c in pixels
    {
      IdxInRange(width, height, x, y);
      pixels[Idx(width, x, y)]
    }

    /** Row y, left to right. */
    function Row(y: nat): (r: seq<Color>)
      requires Valid() && y < height
      ensures |r| == width && forall x: nat :: x < width ==> r[x] == At(x, y)
    {
      seq(width, x requires 0 <= x < width => At(x, y))
    }
  }

  /** Two buffers of the same size with the same pixel at every (x, y) are equal. */
  lemma RasterExt(a: Raster, b: Raster)
    requires a.Valid() && b.Valid() && a.width == b.width && a.height == b.height
    requires forall x: nat, y: nat :: x < a.width && y < a.height ==> a.At(x, y) == b.At(x, y)
    ensures a == b
  {
    forall i | 0 <= i < |a.pixels|
      ensures a.pixels[i] == b.pixels[i]
    {
      IdxCoords(a.width, a.height, i);
      assert a.At(ColumnOf(a.width, i), RowOf(a.width, i)) == b.At(ColumnOf(a.width, i), RowOf(a.width, i));
    }
  }

  /**
   * The first n pixels, in row-major order, of a w×h buffer whose pixel
   * (x, y) is f(x, y).
   */
  function Tabulate(w: nat, h: nat, f: (nat, nat) --> Color, n: nat): (r: seq<Color>)
    requires n <= Area(w, h)
    requires forall x: nat, y: nat :: x < w && y < h ==> f.requires(x, y)
    ensures |r| == n
  {
    if n == 0 then []
    else
      IdxCoords(w, h, n - 1);
      Tabulate(w, h, f, n - 1) + [f(ColumnOf(w, n - 1), RowOf(w, n - 1))]
  }

  lemma {:induction false} TabulateAt(w: nat, h: nat, f: (nat, nat) --> Color, n: nat, x: nat, y: nat)
    requires n <= Area(w, h)
    requires forall x: nat, y: nat :: x < w && y < h ==> f.requires(x, y)
    requires x < w && y < h && Idx(w, x, y) < n
    ensures Tabulate(w, h, f, n)[Idx(w, x, y)] == f(x, y)
  {
    if Idx(w, x, y) < n - 1 {
      TabulateAt(w, h, f, n - 1, x, y);
    } else {
      CoordsOfIdx(w, x, y);
    }
  }

  /** The w×h buffer whose pixel (x, y) is f(x, y). */
  function Grid(w: nat, h: nat, f: (nat, nat) --> Color): (r: Raster)
    requires forall x: nat, y: nat :: x < w && y < h ==> f.requires(x, y)
    ensures r.Valid() && r.width == w && r.height == h
  {
    Raster(w, h, Tabulate(w, h, f, Area(w, h)))
  }

  lemma GridAt(w: nat, h: nat, f: (nat, nat) --> Color, x: nat, y: nat)
    requires forall x: nat, y: nat :: x < w && y < h ==> f.requires(x, y)
    requires x < w && y < h
    ensures Grid(w, h, f).At(x, y) == f(x, y)
  {
    IdxInRange(w, h, x, y);
    TabulateAt(w, h, f, Area(w, h), x, y);
  }

  /** The colour at (x, y), or transparent black outside the buffer. */
  function SampleOrClear(l: Raster, x: int, y: int): Color
    requires l.Valid()
  {
    if 0 <= x < l.width && 0 <= y < l.height then l.At(x, y) else Transparent
  }

  /**
   * The w×h rectangle of `l` whose top-left corner is (x0, y0), reading
   * transparent black outside `l`. This is getImageData on a canvas holding
   * `l`, and with a negative offset it is drawImage of `l` onto a fresh
   * (transparent) canvas.
   */
  function Region(l: Raster, x0: int, y0: int, w: nat, h: nat): (r: Raster)
    requires l.Valid()
    ensures r.Valid() && r.width == w && r.height == h
  {
    Grid(w, h, (x: nat, y: nat) requires l.Valid() => SampleOrClear(l, x0 + x, y0 + y))
  }

  lemma RegionAt(l: Raster, x0: int, y0: int, w: nat, h: nat, x: nat, y: nat)
    requires l.Valid() && x < w && y < h
    ensures Region(l, x0, y0, w, h).At(x, y) == SampleOrClear(l, x0 + x, y0 + y)
  {
    GridAt(w, h, (x: nat, y: nat) requires l.Valid() => SampleOrClear(l, x0 + x, y0 + y), x, y);
  }

  /** The rows y0 .. y0 + h - 1 of `l`, as a sub-slice of its pixels. */
  function CropRows(l: Raster, y0: nat, h: nat): (r: Raster)
    requires l.Valid() && y0 + h <= l.height
    ensures r.Valid() && r.width == l.width && r.height == h
  {
    RowSpan(l.width, l.height, y0, h);
    Raster(l.width, h, l.pixels[Idx(l.width, 0, y0) .. Idx(l.width, 0, y0 + h)])
  }

  lemma CropRowsAt(l: Raster, y0: nat, h: nat, x: nat, y: nat)
    requires l.Valid() && y0 + h <= l.height && x < l.width && y < h
    ensures CropRows(l, y0, h).At(x, y) == l.At(x, y + y0)
  {
    var w := l.width;
    RowSpan(w, l.height, y0, h);
    IdxShift(w, x, y, y0);
    IdxInRange(w, h, x, y);
    var r := CropRows(l, y0, h);
    assert r.pixels[Idx(w, x, y)] == l.pixels[Idx(w, 0, y0) + Idx(w, x, y)];
  }

  /** `l` with rows y0 .. y0 + n - 1 replaced by `row`. */
  function FillRows(l: Raster, y0: nat, row: seq<Color>, n: nat): (r: Raster)
    requires l.Valid() && |row| == l.width && y0 + n <= l.height
    ensures r.Valid() && r.width == l.width && r.height == l.height
  {
    Grid(l.width, l.height, (x: nat, y: nat) requires x < l.width && y < l.height =>
      if y0 <= y < y0 + n then row[x] else l.At(x, y))
  }

  lemma FillRowsAt(l: Raster, y0: nat, row: seq<Color>, n: nat, x: nat, y: nat)
    requires l.Valid() && |row| == l.width && y0 + n <= l.height && x < l.width && y < l.height
    ensures FillRows(l, y0, row, n).At(x, y) == if y0 <= y < y0 + n then row[x] else l.At(x, y)
  {
    GridAt(l.width, l.height, (x: nat, y: nat) requires x < l.width && y < l.height =>
      if y0 <= y < y0 + n then row[x] else l.At(x, y), x, y);
  }

  /** Rows y0 .. y0 + h - 1 of a w-wide buffer of `rows` rows are one slice of h * w pixels. */
  lemma RowSpan(w: nat, rows: nat, y0: nat, h: nat)
    requires y0 + h <= rows
    ensures Idx(w, 0, y0) <= Idx(w, 0, y0 + h) <= Area(w, rows)
    ensures Idx(w, 0, y0 + h) - Idx(w, 0, y0) == Area(w, h)
  {
    AreaFormula(w, rows);
    AreaFormula(w, h);
    IdxFormula(w, 0, y0);
    IdxFormula(w, 0, y0 + h);
    MulMonotone(y0 + h, rows, w);
    assert (y0 + h) * w == y0 * w + h * w;
  }

  // ---------------------------------------------------------------------
  // Byte layout (ImageData.data holds 4 bytes per pixel)

  /** The flat byte array behind a pixel sequence. */
  function Bytes(p: seq<Color>): (r: seq<Byte>)
    ensures |r| == 4 * |p|
  {
    if p == [] then [] else Channels(p[0]) + Bytes(p[1..])
  }

  lemma {:induction false} BytesAt(p: seq<Color>, i: nat, k: nat)
    requires i < |p| && k < 4
    ensures Bytes(p)[4 * i + k] == Channels(p[i])[k]
  {
    if i > 0 {
      BytesAt(p[1..], i - 1, k);
    }
  }

  /** getPixel reads the four bytes at offset 4 * (y * width + x). */
  lemma GetPixelBytes(l: Raster, x: nat, y: nat, k: nat)
    requires l.Valid() && x < l.width && y < l.height && k < 4
    ensures 4 * (y * l.width + x) + k < |Bytes(l.pixels)|
    ensures Bytes(l.pixels)[4 * (y * l.width + x) + k] == Channels(l.At(x, y))[k]
  {
    IdxInRange(l.width, l.height, x, y);
    IdxFormula(l.width, x, y);
    BytesAt(l.pixels, Idx(l.width, x, y), k);
  }

  /** Writing pixel i changes exactly the bytes 4i .. 4i + 3. */
  lemma SetPixelBytes(p: seq<Color>, i: nat, c: Color, j: nat)
    requires i < |p| && j < 4 * |p|
    ensures Bytes(p[i := c])[j] ==
      if 4 * i <= j < 4 * i + 4 then Channels(c)[j - 4 * i] else Bytes(p)[j]
  {
    var q, k := j / 4, j % 4;
    assert j == 4 * q + k;
    BytesAt(p[i := c], q, k);
    BytesAt(p, q, k);
  }

  // ---------------------------------------------------------------------
  // The mutable canvas buffer

  /** A canvas ImageData: fixed width and height, pixels updated in place. */
  class ImageData {
    const width: nat
    const height: nat
    const data: array<Color>

    ghost predicate Valid() {
      data.Length == Area(width, height)
    }

    /** A copy of the given pixels, as getImageData returns. */
    constructor (w: nat, h: nat, pixels: seq<Color>)
      requires |pixels| == Area(w, h)
      ensures Valid() && width == w && height == h
      ensures fresh(data) && data[..] == pixels
    {
      width, height := w, h;
      data := new Color[|pixels|](i requires 0 <= i < |pixels| => pixels[i]);
    }

    /** The current contents as a value. */
    function Snapshot(): (r: Raster)
      reads data
      requires Valid()
      ensures r.Valid() && r.width == width && r.height == height
    {
      Raster(width, height, data[..])
    }

    /** getPixel on the live buffer. */
    function GetPixel(x: nat, y: nat): (c: Color)
      reads data
      requires Valid() && x < width && y < height
      ensures c == Snapshot().At(x, y)
    {
      IdxInRange(width, height, x, y);
      data[Idx(width, x, y)]
    }

    /** setPixel: writes the four channels of pixel (x, y) and nothing else. */
    method SetPixel(x: nat, y: nat, c: Color)
      requires Valid() && x < width && y < height
      modifies data
      ensures Idx(width, x, y) < data.Length && data[..] == old(data[..])[Idx(width, x, y) := c]
      ensures forall x': nat, y': nat :: x' < width && y' < height ==>
        GetPixel(x', y') == if x' == x && y' == y then c else old(GetPixel(x', y'))
    {
      IdxInRange(width, height, x, y);
      data[Idx(width, x, y)] := c;
      forall x': nat, y': nat | x' < width && y' < height && (x' != x || y' != y)
        ensures Idx(width, x', y') != Idx(width, x, y)
      {
        if Idx(width, x', y') == Idx(width, x, y) {
          IdxInjective(width, x', y', x, y);
        }
      }
    }

    /** getPixelRow: the pixels of row y, left to right. */
    function GetPixelRow(y: nat): (row: seq<Color>)
      reads data
      requires Valid() && y < height
      ensures row == Snapshot().Row(y)
    {
      RowSpan(width, height, y, 1);
      var row := data[Idx(width, 0, y) .. Idx(width, 0, y + 1)];
      assert forall x: nat :: x < width ==> Idx(width, x, y) == Idx(width, 0, y) + x by {
        forall x: nat | x < width ensures Idx(width, x, y) == Idx(width, 0, y) + x {
          IdxShift(width, x, 0, y);
        }
      }
      row
    }

    /** One `data.set(row, y * rowLength)`: row y becomes `row`. */
    method SetRow(y: nat, row: seq<Color>)
      requires Valid() && y < height && |row| == width
      modifies data
      ensures forall x': nat, y': nat :: x' < width && y' < height ==>
        GetPixel(x', y') == if y' == y then row[x'] else old(GetPixel(x', y'))
    {
      forall k: nat | k < width
        ensures Idx(width, k, y) < data.Length
      {
        IdxInRange(width, height, k, y);
      }
      forall k1: nat, k2: nat | k1 < width && k2 < width && Idx(width, k1, y) == Idx(width, k2, y)
        ensures k1 == k2
      {
        IdxInjective(width, k1, y, k2, y);
      }
      forall k: nat | k < width {
        data[Idx(width, k, y)] := row[k];
      }
      forall x': nat, y': nat | x' < width && y' < height && y' != y
        ensures GetPixel(x', y') == old(GetPixel(x', y'))
      {
        forall k: nat | k < width
          ensures Idx(width, k, y) != Idx(width, x', y')
        {
          if Idx(width, k, y) == Idx(width, x', y') {
            IdxInjective(width, k, y, x', y');
          }
        }
      }
    }

    /** setPixelRow: rows y .. y + n - 1 all become `row`; the rest stay. */
    method SetPixelRow(y: nat, row: seq<Color>, numberOfRows: nat := 1)
      requires Valid() && |row| == width && y + numberOfRows <= height
      modifies data
      ensures forall x': nat, y': nat :: x' < width && y' < height ==>
        GetPixel(x', y') == if y <= y' < y + numberOfRows then row[x'] else old(GetPixel(x', y'))
      ensures Snapshot() == FillRows(old(Snapshot()), y, row, numberOfRows)
    {
      ghost var before := Snapshot();
      var i := 0;
      while i < numberOfRows
        invariant 0 <= i <= numberOfRows
        invariant forall x': nat, y': nat :: x' < width && y' < height ==>
          GetPixel(x', y') == if y <= y' < y + i then row[x'] else old(GetPixel(x', y'))
      {
        SetRow(y + i, row);
        i := i + 1;
      }
      forall x': nat, y': nat | x' < width && y' < height
        ensures Snapshot().At(x', y') == FillRows(before, y, row, numberOfRows).At(x', y')
      {
        FillRowsAt(before, y, row, numberOfRows, x', y');
        assert old(GetPixel(x', y')) == before.At(x', y');
      }
      RasterExt(Snapshot(), FillRows(before, y, row, numberOfRows));
    }
  }
}
