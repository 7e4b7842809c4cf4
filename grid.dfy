/**
  The grid overlay of the map: the image is divided into 8 columns A..H
  (left to right) and 4 rows 1..4 (top to bottom), and a pixel position is
  named by its cell, such as "C3".
 */
module Grid {

  /** Column letters, left to right. */
  const GridCols: string := "ABCDEFGH"

  /** Row numbers, top to bottom: row 1 is the top edge of the image. */
  const GridRows: seq<int> := [1, 2, 3, 4]

  /** Conversion of a number to an integer by truncation toward zero. */
  function Trunc(t: real): (n: int)
    ensures 0.0 <= t ==> 0 <= n && n as real <= t < n as real + 1.0
    ensures t < 0.0 ==> n <= 0 && n as real - 1.0 < t <= n as real
  {
    if 0.0 <= t then t.Floor else -((-t).Floor)
  }

  /** `max(0, min(i, hi))`: the nearest integer to `i` within `0..hi`. */
  function Clamp(i: int, hi: nat): (r: nat)
    ensures r <= hi
    ensures 0 <= i <= hi ==> r == i
    ensures i < 0 ==> r == 0
    ensures hi < i ==> r == hi
  {
    if i < 0 then 0 else if i > hi then hi else i
  }

  /**
    The band, among `cells` equal bands of an axis of length `extent`,
    holding coordinate `v`: the fraction `v / extent` is scaled by `cells`,
    truncated toward zero and clamped into `0..cells-1`.
   */
  function CellIndex(v: real, extent: int, cells: int): (i: nat)
    requires extent > 0 && cells > 0
    ensures i < cells
  {
    Clamp(Trunc(Scaled(v, extent, cells)), cells - 1)
  }

  /** The coordinate as a fraction of the axis, times the number of bands. */
  function Scaled(v: real, extent: int, cells: int): (s: real)
    requires extent > 0
  {
    v / extent as real * cells as real
  }

  /** Column index of pixel column `x` on an image `w` pixels wide. */
  function ColIndex(x: real, w: int): (c: nat)
    requires w > 0
    ensures c < |GridCols|
  {
    CellIndex(x, w, |GridCols|)
  }

  /** Row index of pixel row `y` on an image `h` pixels high. */
  function RowIndex(y: real, h: int): (r: nat)
    requires h > 0
    ensures r < |GridRows|
  {
    CellIndex(y, h, |GridRows|)
  }

  /** Decimal text of a one-digit number. */
  function DigitText(n: int): (s: string)
    requires 0 <= n <= 9
    ensures |s| == 1 && '0' <= s[0] <= '9'
    ensures s[0] as int - '0' as int == n
  {
    [('0' as int + n) as char]
  }

  /** The label of the cell in column `c` and row `r`: its letter, then its row number. */
  function CellLabel(c: nat, r: nat): (name: string)
    requires c < |GridCols| && r < |GridRows|
    ensures |name| == 2
    ensures 'A' <= name[0] <= 'H' && '1' <= name[1] <= '4'
    ensures name[0] == GridCols[c] && name[0] as int - 'A' as int == c
    ensures name[1] as int - '0' as int == GridRows[r] && name[1] as int - '1' as int == r
  {
    [GridCols[c]] + DigitText(GridRows[r])
  }

  /** The grid cell label of pixel position `(x, y)` on a `w` by `h` image. */
  function XyToGrid(x: real, y: real, w: int, h: int): (name: string)
    requires w > 0 && h > 0
    ensures |name| == 2
    ensures 'A' <= name[0] <= 'H' && '1' <= name[1] <= '4'
  {
    CellLabel(ColIndex(x, w), RowIndex(y, h))
  }

  // ---------------------------------------------------------------------
  // Properties of the mapping
  // ---------------------------------------------------------------------

  /** A label names exactly one cell: column letter and row number are read back unchanged. */
  lemma CellLabelInjective(c1: nat, r1: nat, c2: nat, r2: nat)
    requires c1 < |GridCols| && r1 < |GridRows|
    requires c2 < |GridCols| && r2 < |GridRows|
    requires CellLabel(c1, r1) == CellLabel(c2, r2)
    ensures c1 == c2 && r1 == r2
  {
  }

  /** Comparing the scaled fraction with a band boundary is comparing the coordinate with that boundary. */
  lemma ScaledAtLeast(v: real, extent: real, cells: real, k: real)
    requires extent > 0.0 && cells > 0.0
    ensures (v / extent * cells >= k) <==> (v >= k * extent / cells)
  {
  }

  /**
    Inside the axis, the band is the floor of the scaled fraction: for
    `0 <= v < extent` it is `floor(cells * v / extent)`, no clamping occurs.
   */
  lemma CellIndexInside(v: real, extent: int, cells: int)
    requires extent > 0 && cells > 0
    requires 0.0 <= v < extent as real
    ensures CellIndex(v, extent, cells) == (cells as real * v / extent as real).Floor
  {
    var t := v / extent as real * cells as real;
    assert t == cells as real * v / extent as real;
    ScaledAtLeast(v, extent as real, cells as real, 0.0);
    ScaledAtLeast(v, extent as real, cells as real, cells as real);
    assert cells as real * extent as real / cells as real == extent as real;
  }

  /** A coordinate at or past the far edge falls into the last band. */
  lemma CellIndexBeyond(v: real, extent: int, cells: int)
    requires extent > 0 && cells > 0
    requires v >= extent as real
    ensures CellIndex(v, extent, cells) == cells - 1
  {
    var e, n := extent as real, cells as real;
    assert v / e >= 1.0;
    assert v / e * n >= n;
  }

  /** A coordinate before the near edge falls into the first band. */
  lemma CellIndexBefore(v: real, extent: int, cells: int)
    requires extent > 0 && cells > 0
    requires v < 0.0
    ensures CellIndex(v, extent, cells) == 0
  {
    ScaledAtLeast(v, extent as real, cells as real, 0.0);
  }

  /**
    Exact band boundaries, clamping included: band `k` holds exactly the
    coordinates from `k * extent / cells` (no lower limit for the first band)
    up to but excluding `(k + 1) * extent / cells` (no upper limit for the last).
   */
  lemma CellIndexBand(v: real, extent: int, cells: int, k: int)
    requires extent > 0 && cells > 0 && 0 <= k < cells
    ensures CellIndex(v, extent, cells) == k <==>
      (k == 0 || v >= k as real * extent as real / cells as real) &&
      (k == cells - 1 || v < (k + 1) as real * extent as real / cells as real)
  {
    ScaledAtLeast(v, extent as real, cells as real, k as real);
    ScaledAtLeast(v, extent as real, cells as real, (k + 1) as real);
  }

  /** Moving right or down never moves to an earlier band. */
  lemma CellIndexMonotone(v1: real, v2: real, extent: int, cells: int)
    requires extent > 0 && cells > 0
    requires v1 <= v2
    ensures CellIndex(v1, extent, cells) <= CellIndex(v2, extent, cells)
  {
    ScaledMonotone(v1, v2, extent, cells);
    TruncMonotone(Scaled(v1, extent, cells), Scaled(v2, extent, cells));
  }

  /** Scaling by a positive factor keeps the order of two coordinates. */
  lemma ScaledMonotone(v1: real, v2: real, extent: int, cells: int)
    requires extent > 0 && cells > 0
    requires v1 <= v2
    ensures Scaled(v1, extent, cells) <= Scaled(v2, extent, cells)
  {
    assert v1 / extent as real <= v2 / extent as real;
  }

  /** Truncation toward zero never decreases as its argument grows. */
  lemma TruncMonotone(t1: real, t2: real)
    requires t1 <= t2
    ensures Trunc(t1) <= Trunc(t2)
  {
  }

  /** The top left pixel is in cell A1. */
  lemma OriginIsA1(w: int, h: int)
    requires w > 0 && h > 0
    ensures XyToGrid(0.0, 0.0, w, h) == "A1"
  {
    CellIndexInside(0.0, w, |GridCols|);
    CellIndexInside(0.0, h, |GridRows|);
  }

  /**
    A point less than one cell from the bottom right corner, and every point
    past it, is in cell H4: the far edges never yield an index out of range.
   */
  lemma FarCornerIsH4(x: real, y: real, w: int, h: int)
    requires w > 0 && h > 0
    requires x >= 7.0 * w as real / 8.0 && y >= 3.0 * h as real / 4.0
    ensures XyToGrid(x, y, w, h) == "H4"
  {
    CellIndexBand(x, w, |GridCols|, 7);
    CellIndexBand(y, h, |GridRows|, 3);
  }

  /**
    On the image the label spells out the floors directly: the column letter
    is the `floor(8 * x / w)`-th letter after `A` and the row digit is
    `floor(4 * y / h)` above `1`.
   */
  lemma XyToGridInImage(x: real, y: real, w: int, h: int)
    requires w > 0 && h > 0
    requires 0.0 <= x < w as real && 0.0 <= y < h as real
    ensures XyToGrid(x, y, w, h)[0] as int - 'A' as int == (8.0 * x / w as real).Floor
    ensures XyToGrid(x, y, w, h)[1] as int - '1' as int == (4.0 * y / h as real).Floor
  {
    CellIndexInside(x, w, |GridCols|);
    CellIndexInside(y, h, |GridRows|);
  }

  /** The label's column letter and row digit never decrease as the position moves right and down. */
  lemma XyToGridMonotone(x1: real, y1: real, x2: real, y2: real, w: int, h: int)
    requires w > 0 && h > 0
    requires x1 <= x2 && y1 <= y2
    ensures XyToGrid(x1, y1, w, h)[0] <= XyToGrid(x2, y2, w, h)[0]
    ensures XyToGrid(x1, y1, w, h)[1] <= XyToGrid(x2, y2, w, h)[1]
  {
    CellIndexMonotone(x1, x2, w, |GridCols|);
    CellIndexMonotone(y1, y2, h, |GridRows|);
  }
}
