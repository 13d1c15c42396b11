/** The arithmetic of `src/pixify.js`: option normalisation, the derived
    cube geometry, the canvas size of each rendering mode, where each
    sprite pixel's cube is stamped and in which order. */
module Pixify {
  import opened Wrappers
  import opened Geometry

  /** The canvas margin, a constant of the constructor. */
  const Padding: int := 10

  /** The side used when the option is missing or normalises to nothing. */
  const DefaultSide: int := 32

  /** `side % 2 === 0 ? side : side - 1 || 32`: an even side is kept, an
      odd one is lowered by one unless that gives 0 (side 1); a missing
      side (`undefined`, so NaN) takes the default. JavaScript's
      truncating `%` and Dafny's agree on whether a number is even. */
  function NormalizeSide(side: Option<int>): (r: int)
    ensures r % 2 == 0
    ensures side.None? ==> r == DefaultSide
    ensures side.Some? && side.value != 1 ==> r <= side.value < r + 2
    ensures side == Some(1) ==> r == DefaultSide
  {
    match side
    case None => DefaultSide
    case Some(s) => if s % 2 == 0 then s else if s - 1 != 0 then s - 1 else DefaultSide
  }

  /** `gap % 2 === 0 ? gap : gap - 1 || 0`: the even number at or just
      below the gap (gap 1 lowers to 0, which the default repeats); a
      missing gap is 0. */
  function NormalizeGap(gap: Option<int>): (r: int)
    ensures r % 2 == 0
    ensures gap.None? ==> r == 0
    ensures gap.Some? ==> r <= gap.value < r + 2
  {
    match gap
    case None => 0
    case Some(g) => if g % 2 == 0 then g else if g - 1 != 0 then g - 1 else 0
  }

  /** Normalising twice changes nothing. */
  lemma NormalizeIdempotent(side: Option<int>, gap: Option<int>)
    ensures NormalizeSide(Some(NormalizeSide(side))) == NormalizeSide(side)
    ensures NormalizeGap(Some(NormalizeGap(gap))) == NormalizeGap(gap)
  {
  }

  /** The sizes the renderer keeps: side and gap, and the derived cube
      height, width, half side and stamp distance. */
  datatype Config = Config(side: int, gap: int, pixelHeight: int, pixelWidth: int, offset: int, distance: int)

  /** The derived fields agree with side and gap, and both are even. */
  predicate Consistent(c: Config) {
    && c.side % 2 == 0 && c.gap % 2 == 0
    && c.pixelHeight == c.side && c.pixelWidth == 2 * c.side - 1
    && 2 * c.offset == c.side && c.distance == c.side + c.gap
  }

  /** `setPixelSize`: normalises the side and recomputes every field that
      depends on it; the gap is kept. */
  function SetPixelSize(c: Config, side: Option<int>): (r: Config)
    requires c.gap % 2 == 0
    ensures Consistent(r) && r.gap == c.gap && r.side == NormalizeSide(side)
  {
    var s := NormalizeSide(side);
    c.(side := s, pixelHeight := s, pixelWidth := s * 2 - 1, offset := s / 2, distance := s + c.gap)
  }

  /** `setPixelGap`: normalises the gap and recomputes the distance; the
      cube sizes are kept. */
  function SetPixelGap(c: Config, gap: Option<int>): (r: Config)
    requires Consistent(c)
    ensures Consistent(r) && r.side == c.side && r.gap == NormalizeGap(gap)
    ensures r.pixelWidth == c.pixelWidth && r.pixelHeight == c.pixelHeight && r.offset == c.offset
  {
    var g := NormalizeGap(gap);
    c.(gap := g, distance := c.side + g)
  }

  /** The constructor: side 32 and gap 0 with all derived fields 0, then
      `setPixelSize(opts.pixelSide)` and `setPixelGap(opts.pixelGap)`. */
  function NewConfig(side: Option<int>, gap: Option<int>): (c: Config)
    ensures Consistent(c)
    ensures c.side == NormalizeSide(side) && c.gap == NormalizeGap(gap)
  {
    SetPixelGap(SetPixelSize(Config(DefaultSide, 0, 0, 0, 0, 0), side), gap)
  }

  /** Setting size and gap commute. */
  lemma SizeAndGapCommute(c: Config, side: Option<int>, gap: Option<int>)
    requires Consistent(c)
    ensures SetPixelGap(SetPixelSize(c, side), gap) == SetPixelSize(SetPixelGap(c, gap), side)
  {
  }

  /** The halvings the source does in floating point (`_pixelSide / 2`,
      `_gap / 2`, `0.5 * _distance`) are exact for the even values kept,
      negative ones included. */
  lemma HalvesAreExact(c: Config)
    requires Consistent(c)
    ensures (c.side as real) / 2.0 == c.offset as real
    ensures (c.gap as real) / 2.0 == (c.gap / 2) as real
    ensures (c.distance as real) * 0.5 == (c.distance / 2) as real
    ensures c.distance % 2 == 0
  {
  }

  // ----- canvas sizes and stamp origins -----

  /** `renderHorizontal`'s canvas: the sprite's rows run down and to the
      right, so both resolutions add to the width. */
  function CanvasHorizontal(c: Config, xRes: int, yRes: int): Point
    requires Consistent(c)
  {
    var n := xRes + yRes - 2;
    Point(2 * Padding + c.side * n + c.gap * n + c.pixelWidth,
          2 * Padding + c.offset * (xRes + yRes) + (c.gap / 2) * n + c.pixelHeight - 1)
  }

  /** `renderVertical`'s canvas: the sprite's rows are stacked. */
  function CanvasVertical(c: Config, xRes: int, yRes: int): Point
    requires Consistent(c)
  {
    Point(2 * Padding + c.side * (xRes - 1) + c.gap * (xRes - 1) + c.pixelWidth,
          2 * Padding + c.offset * (xRes + 1) + (c.gap / 2) * (xRes - 1) + c.pixelHeight * yRes + c.gap * (yRes - 1) - 1)
  }

  /** The origin both modes share: the padding across, and down by half a
      stamp step per sprite column beyond the first, less one. */
  function Base(c: Config, xRes: int): Point
    requires Consistent(c)
  {
    Point(Padding, Padding + (xRes - 1) * c.offset + (c.gap / 2) * (xRes - 1) - 1)
  }

  /** Where sprite pixel (x, y)'s cube goes in horizontal mode:
      `(x + y) * distance` across and `(y * 0.5 - x * 0.5) * distance` down. */
  function OriginHorizontal(c: Config, xRes: int, x: int, y: int): Point
    requires Consistent(c)
  {
    var b := Base(c, xRes);
    Point(b.x + (x + y) * c.distance, b.y + (y - x) * (c.distance / 2))
  }

  /** Where sprite pixel (x, y)'s cube goes in vertical mode: `x * distance`
      across and `(y - x * 0.5) * distance` down. */
  function OriginVertical(c: Config, xRes: int, x: int, y: int): Point
    requires Consistent(c)
  {
    var b := Base(c, xRes);
    Point(b.x + x * c.distance, b.y + y * c.distance - x * (c.distance / 2))
  }

  /** The integer origins are the source's floating-point ones: the
      halved steps land on whole pixels because the distance is even. */
  lemma OriginsMatchSource(c: Config, xRes: int, x: int, y: int)
    requires Consistent(c)
    ensures var b := Base(c, xRes);
      (OriginHorizontal(c, xRes, x, y).y as real)
        == (b.y as real) + ((y as real) * 0.5 - (x as real) * 0.5) * (c.distance as real)
    ensures var b := Base(c, xRes);
      (OriginVertical(c, xRes, x, y).y as real)
        == (b.y as real) + ((y as real) - (x as real) * 0.5) * (c.distance as real)
  {
    var h := c.distance / 2;
    assert c.distance == 2 * h;
    var dr := c.distance as real;
    assert dr == 2.0 * (h as real);
    var yr, xr := y as real, x as real;
    assert (yr * 0.5 - xr * 0.5) * dr == (yr - xr) * (h as real);
    assert ((y - x) * h) as real == (yr - xr) * (h as real);
    assert (yr - xr * 0.5) * dr == yr * dr - xr * (h as real);
    assert (y * c.distance) as real == yr * dr;
    assert (x * h) as real == xr * (h as real);
  }

  /** The cube template's grid: width 2s - 1 and height 2s. */
  predicate InStamp(c: Config, tx: int, ty: int) {
    0 <= tx < c.pixelWidth && 0 <= ty < c.pixelHeight + c.side
  }

  lemma Distribute(a: int, b: int, k: int)
    ensures a * k + b * k == (a + b) * k
  {
  }

  lemma MulCommutes(a: int, b: int)
    ensures a * b == b * a
  {
  }

  lemma HorizontalHeight(c: Config, xRes: int, yRes: int)
    requires Consistent(c)
    ensures CanvasHorizontal(c, xRes, yRes).y
              == 2 * Padding + (xRes + yRes - 2) * (c.distance / 2) + 2 * c.side - 1
  {
    var n := xRes + yRes - 2;
    var h, g2 := c.distance / 2, c.gap / 2;
    assert h == c.offset + g2;
    MulCommutes(c.offset, xRes + yRes);
    MulCommutes(g2, n);
    Distribute(c.offset, g2, n);
    Distribute(n, 2, c.offset);
  }

  lemma HorizontalOriginY(c: Config, xRes: int, x: int, y: int)
    requires Consistent(c)
    ensures OriginHorizontal(c, xRes, x, y).y == Padding - 1 + (xRes - 1 - x + y) * (c.distance / 2)
  {
    var h, g2 := c.distance / 2, c.gap / 2;
    assert h == c.offset + g2;
    MulCommutes(xRes - 1, c.offset);
    Distribute(c.offset, g2, xRes - 1);
    Distribute(xRes - 1, y - x, h);
  }

  /** In horizontal mode every cube lies wholly on the canvas, so the
      drawer's clipping never cuts one off. */
  lemma StampsFitHorizontal(c: Config, xRes: int, yRes: int, x: int, y: int, tx: int, ty: int)
    requires Consistent(c) && c.side >= 2 && c.gap >= 0
    requires 0 <= x < xRes && 0 <= y < yRes && InStamp(c, tx, ty)
    ensures var o, size := OriginHorizontal(c, xRes, x, y), CanvasHorizontal(c, xRes, yRes);
      InGrid(size.x, size.y, o.x + tx, o.y + ty)
  {
    var n := xRes + yRes - 2;
    var d, h := c.distance, c.distance / 2;
    var k := xRes - 1 - x + y;
    // across
    MulMonotone(d, 0, x + y);
    MulMonotone(d, x + y, n);
    Distribute(c.side, c.gap, n);
    MulCommutes(n, d);
    // down
    HorizontalOriginY(c, xRes, x, y);
    HorizontalHeight(c, xRes, yRes);
    MulMonotone(h, 0, k);
    MulMonotone(h, k, n);
    MulCommutes(h, k);
    MulCommutes(h, n);
  }

  lemma VerticalHeight(c: Config, xRes: int, yRes: int)
    requires Consistent(c)
    ensures CanvasVertical(c, xRes, yRes).y
              == 2 * Padding + (xRes - 1) * (c.distance / 2) + (yRes - 1) * c.distance + 2 * c.side - 1
  {
    var d, h, g2 := c.distance, c.distance / 2, c.gap / 2;
    assert h == c.offset + g2;
    MulCommutes(c.offset, xRes + 1);
    Distribute(xRes - 1, 2, c.offset);
    MulCommutes(g2, xRes - 1);
    Distribute(c.offset, g2, xRes - 1);
    MulCommutes(xRes - 1, c.offset);
    assert c.offset * (xRes + 1) + g2 * (xRes - 1) == (xRes - 1) * h + c.side;
    MulCommutes(c.side, yRes);
    Distribute(yRes - 1, 1, c.side);
    MulCommutes(c.side, yRes - 1);
    MulCommutes(c.gap, yRes - 1);
    Distribute(c.side, c.gap, yRes - 1);
    MulCommutes(d, yRes - 1);
    assert c.pixelHeight * yRes + c.gap * (yRes - 1) == (yRes - 1) * d + c.side;
  }

  lemma VerticalOriginY(c: Config, xRes: int, x: int, y: int)
    requires Consistent(c)
    ensures OriginVertical(c, xRes, x, y).y == Padding - 1 + (xRes - 1 - x) * (c.distance / 2) + y * c.distance
  {
    var h, g2 := c.distance / 2, c.gap / 2;
    assert h == c.offset + g2;
    MulCommutes(xRes - 1, c.offset);
    Distribute(c.offset, g2, xRes - 1);
    MulCommutes(xRes - 1, h);
    assert (xRes - 1) * c.offset + g2 * (xRes - 1) == (xRes - 1) * h;
    MulCommutes(x, h);
    Distribute(xRes - 1 - x, x, h);
  }

  /** In vertical mode every cube lies wholly on the canvas too. */
  lemma StampsFitVertical(c: Config, xRes: int, yRes: int, x: int, y: int, tx: int, ty: int)
    requires Consistent(c) && c.side >= 2 && c.gap >= 0
    requires 0 <= x < xRes && 0 <= y < yRes && InStamp(c, tx, ty)
    ensures var o, size := OriginVertical(c, xRes, x, y), CanvasVertical(c, xRes, yRes);
      InGrid(size.x, size.y, o.x + tx, o.y + ty)
  {
    var d, h := c.distance, c.distance / 2;
    var o, size := OriginVertical(c, xRes, x, y), CanvasVertical(c, xRes, yRes);
    // across
    MulMonotone(d, 0, x);
    MulMonotone(d, x, xRes - 1);
    Distribute(c.side, c.gap, xRes - 1);
    MulCommutes(xRes - 1, d);
    assert size.x == 2 * Padding + (xRes - 1) * d + c.pixelWidth;
    // down
    VerticalOriginY(c, xRes, x, y);
    VerticalHeight(c, xRes, yRes);
    MulMonotone(h, 0, xRes - 1 - x);
    MulMonotone(h, xRes - 1 - x, xRes - 1);
    MulMonotone(d, 0, y);
    MulMonotone(d, y, yRes - 1);
    MulCommutes(h, xRes - 1 - x);
    MulCommutes(h, xRes - 1);
    MulCommutes(d, y);
    MulCommutes(d, yRes - 1);
  }

  // ----- the order cubes are stamped in -----

  /** One sprite row visited right to left, as both modes' inner loops do. */
  function RowRightToLeft(xRes: int, y: int): (r: seq<Point>)
    ensures |r| == if xRes > 0 then xRes else 0
    ensures forall j :: 0 <= j < |r| ==> r[j] == Point(xRes - 1 - j, y)
  {
    seq(if xRes > 0 then xRes else 0, j => Point(xRes - 1 - j, y))
  }

  /** A right-to-left row of n pixels starts with column n - 1 and goes on
      as the row of the first n - 1. */
  lemma RowStartsAtRight(n: int, y: int)
    requires n >= 1
    ensures RowRightToLeft(n, y) == [Point(n - 1, y)] + RowRightToLeft(n - 1, y)
  {
  }

  /** `renderHorizontal`'s order: rows top to bottom, each right to left. */
  function OrderHorizontal(xRes: int, yRes: int): seq<Point>
    decreases yRes
  {
    if yRes <= 0 then [] else OrderHorizontal(xRes, yRes - 1) + RowRightToLeft(xRes, yRes - 1)
  }

  /** `renderVertical`'s order: rows bottom to top from row yRes - 1 down
      to row lo, each right to left. */
  function OrderVerticalFrom(xRes: int, yRes: int, lo: int): seq<Point>
    decreases yRes - lo
  {
    if lo >= yRes then [] else OrderVerticalFrom(xRes, yRes, lo + 1) + RowRightToLeft(xRes, lo)
  }

  function OrderVertical(xRes: int, yRes: int): seq<Point> {
    OrderVerticalFrom(xRes, yRes, 0)
  }

  /** Where horizontal mode stamps sprite pixel (x, y): after y whole rows
      and the xRes - 1 - x pixels to its right. */
  lemma {:induction false} OrderHorizontalPosition(xRes: int, yRes: int, x: int, y: int)
    requires 0 <= x < xRes && 0 <= y < yRes
    ensures |OrderHorizontal(xRes, yRes)| == xRes * yRes
    ensures 0 <= StepHorizontal(xRes, x, y) < xRes * yRes
    ensures OrderHorizontal(xRes, yRes)[StepHorizontal(xRes, x, y)] == Point(x, y)
  {
    OrderHorizontalLength(xRes, yRes);
    OrderHorizontalLength(xRes, yRes - 1);
    MulMonotone(xRes, y, yRes - 1);
    MulMonotone(xRes, 0, y);
    MulCommutes(y, xRes);
    Distribute(yRes - 1, 1, xRes);
    if y < yRes - 1 {
      OrderHorizontalPosition(xRes, yRes - 1, x, y);
    } else {
      MulCommutes(y, xRes);
    }
  }

  lemma {:induction false} OrderHorizontalLength(xRes: int, yRes: int)
    requires xRes >= 0
    ensures |OrderHorizontal(xRes, yRes)| == if yRes > 0 then xRes * yRes else 0
    decreases yRes
  {
    if yRes > 0 {
      OrderHorizontalLength(xRes, yRes - 1);
      Distribute(yRes - 1, 1, xRes);
      MulCommutes(yRes, xRes);
      MulCommutes(yRes - 1, xRes);
    }
  }

  /** Horizontal mode visits exactly the sprite's pixels. */
  lemma {:induction false} OrderHorizontalCovers(xRes: int, yRes: int)
    ensures forall p: Point :: p in OrderHorizontal(xRes, yRes) <==> InGrid(xRes, yRes, p.x, p.y)
    decreases yRes
  {
    if yRes > 0 {
      OrderHorizontalCovers(xRes, yRes - 1);
      var row := RowRightToLeft(xRes, yRes - 1);
      forall p: Point | InGrid(xRes, yRes, p.x, p.y) && p.y == yRes - 1
        ensures p in row
      {
        assert row[xRes - 1 - p.x] == p;
      }
    }
  }

  /** Vertical mode's order in the same form: the pixel (x, y) comes after
      the rows below it, then the pixels to its right. */
  lemma {:induction false} OrderVerticalPosition(xRes: int, yRes: int, lo: int, x: int, y: int)
    requires 0 <= x < xRes && 0 <= lo <= y < yRes
    ensures |OrderVerticalFrom(xRes, yRes, lo)| == xRes * (yRes - lo)
    ensures 0 <= StepVertical(xRes, yRes, x, y) < xRes * (yRes - lo)
    ensures OrderVerticalFrom(xRes, yRes, lo)[StepVertical(xRes, yRes, x, y)] == Point(x, y)
    decreases y - lo
  {
    OrderVerticalLength(xRes, yRes, lo);
    OrderVerticalLength(xRes, yRes, lo + 1);
    MulMonotone(xRes, yRes - 1 - y, yRes - 1 - lo);
    MulMonotone(xRes, 0, yRes - 1 - y);
    MulCommutes(yRes - 1 - y, xRes);
    Distribute(yRes - 1 - lo, 1, xRes);
    MulCommutes(xRes, yRes - lo);
    MulCommutes(xRes, yRes - 1 - lo);
    if lo < y {
      OrderVerticalPosition(xRes, yRes, lo + 1, x, y);
    } else {
      MulCommutes(yRes - 1 - y, xRes);
    }
  }

  lemma {:induction false} OrderVerticalLength(xRes: int, yRes: int, lo: int)
    requires xRes >= 0
    ensures |OrderVerticalFrom(xRes, yRes, lo)| == if lo < yRes then xRes * (yRes - lo) else 0
    decreases yRes - lo
  {
    if lo < yRes {
      OrderVerticalLength(xRes, yRes, lo + 1);
      Distribute(yRes - lo - 1, 1, xRes);
      MulCommutes(yRes - lo, xRes);
      MulCommutes(yRes - lo - 1, xRes);
    }
  }

  /** Vertical mode visits exactly the sprite's pixels from row lo down. */
  lemma {:induction false} OrderVerticalCovers(xRes: int, yRes: int, lo: int)
    requires lo >= 0
    ensures forall p: Point :: p in OrderVerticalFrom(xRes, yRes, lo) <==> InGrid(xRes, yRes, p.x, p.y) && p.y >= lo
    decreases yRes - lo
  {
    if lo < yRes {
      OrderVerticalCovers(xRes, yRes, lo + 1);
      var row := RowRightToLeft(xRes, lo);
      forall p: Point | InGrid(xRes, yRes, p.x, p.y) && p.y == lo
        ensures p in row
      {
        assert row[xRes - 1 - p.x] == p;
      }
    }
  }

  /** The stamping step of sprite pixel (x, y) in each mode. */
  function StepHorizontal(xRes: int, x: int, y: int): int {
    y * xRes + (xRes - 1 - x)
  }

  function StepVertical(xRes: int, yRes: int, x: int, y: int): int {
    (yRes - 1 - y) * xRes + (xRes - 1 - x)
  }

  /** The cubes that overlap a cube from the front are stamped after it:
      in horizontal mode its left neighbour (x - 1, y) and lower neighbour
      (x, y + 1), in vertical mode its left neighbour and the neighbour
      (x, y - 1) on the row above, which stacks over it. */
  lemma FrontNeighboursLater(xRes: int, yRes: int, x: int, y: int)
    requires 0 <= x < xRes && 0 <= y < yRes
    ensures 0 < x ==> (
      && 0 <= StepHorizontal(xRes, x - 1, y) < |OrderHorizontal(xRes, yRes)|
      && OrderHorizontal(xRes, yRes)[StepHorizontal(xRes, x - 1, y)] == Point(x - 1, y)
      && StepHorizontal(xRes, x, y) < StepHorizontal(xRes, x - 1, y))
    ensures y + 1 < yRes ==> (
      && 0 <= StepHorizontal(xRes, x, y + 1) < |OrderHorizontal(xRes, yRes)|
      && OrderHorizontal(xRes, yRes)[StepHorizontal(xRes, x, y + 1)] == Point(x, y + 1)
      && StepHorizontal(xRes, x, y) < StepHorizontal(xRes, x, y + 1))
    ensures 0 < x ==> (
      && 0 <= StepVertical(xRes, yRes, x - 1, y) < |OrderVertical(xRes, yRes)|
      && OrderVertical(xRes, yRes)[StepVertical(xRes, yRes, x - 1, y)] == Point(x - 1, y)
      && StepVertical(xRes, yRes, x, y) < StepVertical(xRes, yRes, x - 1, y))
    ensures 0 < y ==> (
      && 0 <= StepVertical(xRes, yRes, x, y - 1) < |OrderVertical(xRes, yRes)|
      && OrderVertical(xRes, yRes)[StepVertical(xRes, yRes, x, y - 1)] == Point(x, y - 1)
      && StepVertical(xRes, yRes, x, y) < StepVertical(xRes, yRes, x, y - 1))
  {
    if 0 < x {
      OrderHorizontalPosition(xRes, yRes, x - 1, y);
      OrderVerticalPosition(xRes, yRes, 0, x - 1, y);
    }
    if y + 1 < yRes {
      OrderHorizontalPosition(xRes, yRes, x, y + 1);
      Distribute(y, 1, xRes);
      MulCommutes(y + 1, xRes);
    }
    if 0 < y {
      OrderVerticalPosition(xRes, yRes, 0, x, y - 1);
      Distribute(yRes - 1 - y, 1, xRes);
    }
  }
}
