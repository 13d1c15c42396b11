/** The older single-file build, `pixify.js` at the repository root. It
    has no template: `pixel2pixel` draws each cube's strokes straight onto
    the canvas with a cursor-and-colour drawer whose `setPixel` clips but
    has no alpha test, and palettes are plain objects keyed by the colour's
    hash. Its vertical origins sit one row lower than the later build's
    and its horizontal canvas one row taller. */
module Legacy {
  import opened Wrappers
  import opened Color
  import opened Pix
  import opened Geometry
  import opened Palettes
  import opened Pixify
  import D = Drawer
  import St = Stencil
  import R = Render

  // ----- sizes -----

  /** The constructor's sizes: gap and side normalised as in the later
      build (gap first, which does not matter), the derived fields computed
      once. */
  function LegacyConfig(side: Option<int>, gap: Option<int>): (c: Config)
    ensures Consistent(c)
  {
    var g := NormalizeGap(gap);
    var s := NormalizeSide(side);
    Config(s, g, s, s * 2 - 1, s / 2, s + g)
  }

  /** The later build's setters arrive at the same sizes. */
  lemma LegacyConfigAgrees(side: Option<int>, gap: Option<int>)
    ensures LegacyConfig(side, gap) == NewConfig(side, gap)
  {
  }

  /** Horizontal canvas: as the later build's, without its final `- 1`. */
  function LegacyCanvasHorizontal(c: Config, xRes: int, yRes: int): Point
    requires Consistent(c)
  {
    var n := xRes + yRes - 2;
    Point(2 * Padding + c.side * n + c.gap * n + c.pixelWidth,
          2 * Padding + c.offset * (xRes + yRes) + (c.gap / 2) * n + c.pixelHeight)
  }

  /** Vertical canvas: the same formula as the later build's. */
  function LegacyCanvasVertical(c: Config, xRes: int, yRes: int): Point
    requires Consistent(c)
  {
    Point(2 * Padding + c.side * (xRes - 1) + c.gap * (xRes - 1) + c.pixelWidth,
          2 * Padding + c.offset * (xRes + 1) + (c.gap / 2) * (xRes - 1) + c.pixelHeight * yRes + c.gap * (yRes - 1) - 1)
  }

  /** The cursor base: `pixel2pixel`'s y is the cube's bottom-left outline
      row, s + s/2 below its top. */
  function LegacyBase(c: Config, xRes: int): Point
    requires Consistent(c)
  {
    Point(Padding, Padding + xRes * c.offset + (c.gap / 2) * (xRes - 1) + c.pixelHeight)
  }

  function LegacyCursorHorizontal(c: Config, xRes: int, i: int, j: int): Point
    requires Consistent(c)
  {
    var b := LegacyBase(c, xRes);
    Point(b.x + (i + j) * c.distance, b.y + (j - i) * (c.distance / 2))
  }

  function LegacyCursorVertical(c: Config, xRes: int, i: int, j: int): Point
    requires Consistent(c)
  {
    var b := LegacyBase(c, xRes);
    Point(b.x + i * c.distance, b.y + j * c.distance - i * (c.distance / 2))
  }

  /** The integer cursors are the source's floating-point ones. */
  lemma LegacyCursorsMatchSource(c: Config, xRes: int, i: int, j: int)
    requires Consistent(c)
    ensures var b := LegacyBase(c, xRes);
      (LegacyCursorHorizontal(c, xRes, i, j).y as real)
        == (b.y as real) + ((j as real) * 0.5 - (i as real) * 0.5) * (c.distance as real)
    ensures var b := LegacyBase(c, xRes);
      (LegacyCursorVertical(c, xRes, i, j).y as real)
        == (b.y as real) + ((j as real) - (i as real) * 0.5) * (c.distance as real)
  {
    OriginsMatchSource(c, xRes, i, j);
  }

  /** The top-left corner of the cube `pixel2pixel` draws from cursor p. */
  function CubeCorner(c: Config, p: Point): Point {
    Point(p.x, p.y - c.side - c.offset)
  }

  /** Against the later build: same canvas width, the horizontal canvas one
      row taller, and every cube one row lower. */
  lemma LegacyLayoutAgainstLater(c: Config, xRes: int, yRes: int, i: int, j: int)
    requires Consistent(c)
    ensures LegacyCanvasHorizontal(c, xRes, yRes) == Point(CanvasHorizontal(c, xRes, yRes).x, CanvasHorizontal(c, xRes, yRes).y + 1)
    ensures LegacyCanvasVertical(c, xRes, yRes) == CanvasVertical(c, xRes, yRes)
    ensures CubeCorner(c, LegacyCursorHorizontal(c, xRes, i, j))
            == Point(OriginHorizontal(c, xRes, i, j).x, OriginHorizontal(c, xRes, i, j).y + 1)
    ensures CubeCorner(c, LegacyCursorVertical(c, xRes, i, j))
            == Point(OriginVertical(c, xRes, i, j).x, OriginVertical(c, xRes, i, j).y + 1)
  {
    Distribute(xRes - 1, 1, c.offset);
    MulCommutes(xRes, c.offset);
    MulCommutes(xRes - 1, c.offset);
  }

  // ----- palettes -----

  /** The palette object: the colour itself on top, the two darkened
      shades on the left and right. */
  datatype LegacyPalette = LegacyPalette(top: RGB, left: RGB, right: RGB, highlight: RGB, cornerHighlight: RGB, outline: RGB)

  /** What `getColorPalette` builds for a colour it has not seen: `null`
      for alpha 0, else the six colours. */
  function BuildLegacyPalette(c: RGB): (r: Option<LegacyPalette>)
    requires c.a == 0.0 || HSLDefined(c)
    ensures r.None? <==> c.a == 0.0
    ensures r.Some? ==> r.value.top == c
  {
    if c.a == 0.0 then None
    else
      var hsl := GetHSL(c);
      Some(LegacyPalette(c, GetRGB(Darken(hsl, 30.0)), GetRGB(Darken(hsl, 60.0)),
                         GetRGB(Lighten(hsl, 30.0)), GetRGB(Lighten(hsl, 80.0)), GetRGB(Darken(hsl, 90.0))))
  }

  /** The colour a face is drawn in. */
  function Ink(p: LegacyPalette, f: Face): RGB {
    match f
    case Left => p.left
    case Right => p.right
    case Top => p.top
    case Outline => p.outline
    case Highlight => p.highlight
    case CornerHighlight => p.cornerHighlight
    case Transparent => TransparentColor
  }

  /** The legacy palette is the later build's palette read through the
      sun-at-top-left pattern: top = normal side, left = dark side, right
      = darkest side. */
  lemma LegacyPaletteIsTopLeft(c: RGB, f: Face)
    requires HSLDefined(c) && c.a != 0.0
    ensures Ink(BuildLegacyPalette(c).value, f) == FaceColor(MakePalette(c), PatternOf(SunTopLeft), f)
  {
  }

  /** Every stored entry is what would be built afresh for its key. */
  ghost predicate LutCoherent(lut: map<ColorKey, Option<LegacyPalette>>) {
    forall k :: k in lut ==> (ColorOfKey(k).a == 0.0 || HSLDefined(ColorOfKey(k))) && lut[k] == BuildLegacyPalette(ColorOfKey(k))
  }

  /** `getColorPalette`: the hash table from colour key to palette or
      `null`; a missing or `null` entry is computed and stored, so the
      answer is always what would be built afresh. */
  function GetColorPalette(lut: map<ColorKey, Option<LegacyPalette>>, c: RGB): (r: (map<ColorKey, Option<LegacyPalette>>, Option<LegacyPalette>))
    requires LutCoherent(lut) && (c.a == 0.0 || HSLDefined(c))
    ensures r.1 == BuildLegacyPalette(c)
    ensures LutCoherent(r.0)
    ensures r.0.Keys == lut.Keys + {Key(c)}
    ensures forall k :: k in lut ==> r.0[k] == lut[k]
  {
    KeyIsInjective(c, c);
    var k := Key(c);
    var lut' := if k !in lut || lut[k].None? then lut[k := BuildLegacyPalette(c)] else lut;
    (lut', lut'[k])
  }

  // ----- the drawer -----

  /** The drawer: canvas buffer, cursor and current colour. */
  datatype Pen = Pen(canvas: D.PixelDrawer, cursor: Point, color: RGB)

  /** The four bytes of pixel (x, y) replaced by p, when it is inside
      the image. */
  function Put(d: D.PixelDrawer, x: int, y: int, p: D.Pixel): (r: D.PixelDrawer)
    requires D.WellFormed(d)
    ensures D.WellFormed(r) && r.width == d.width && r.height == d.height
    ensures InGrid(d.width, d.height, x, y) ==> D.PixelAt(r, x, y) == p
    ensures !InGrid(d.width, d.height, x, y) ==> r == d
    ensures forall i :: 0 <= i < |d.data| && i / 4 != Index(d.width, x, y) ==> r.data[i] == d.data[i]
  {
    if InGrid(d.width, d.height, x, y) then
      D.OffsetInRange(d, x, y);
      d.(data := D.Write(d.data, D.Offset(d.width, x, y), p))
    else d
  }

  lemma PutKeepsOthers(d: D.PixelDrawer, x: int, y: int, p: D.Pixel, x': int, y': int)
    requires D.WellFormed(d) && InGrid(d.width, d.height, x', y') && (x', y') != (x, y)
    ensures D.PixelAt(Put(d, x, y, p), x', y') == D.PixelAt(d, x', y')
  {
    if InGrid(d.width, d.height, x, y) {
      IndexInjective(d.width, x, y, x', y');
      D.OtherPixelKept(d, Put(d, x, y, p), Index(d.width, x, y), x', y');
    }
  }

  /** `setPixel`: any pixel inside the image is written, whatever the
      alpha; outside, nothing happens. */
  function LegacySetPixel(d: D.PixelDrawer, x: int, y: int, c: RGB): (r: D.PixelDrawer)
    requires D.WellFormed(d)
    ensures D.WellFormed(r) && r.width == d.width && r.height == d.height
    ensures InGrid(d.width, d.height, x, y) ==> D.PixelAt(r, x, y) == D.Bytes(c)
    ensures !InGrid(d.width, d.height, x, y) ==> r == d
  {
    Put(d, x, y, D.Bytes(c))
  }

  /** With a colour of non-zero alpha it is the later build's `setPixel`;
      the two differ only on transparent colours, which this one writes. */
  lemma LegacySetPixelAgrees(d: D.PixelDrawer, x: int, y: int, c: RGB)
    requires D.WellFormed(d)
    ensures c.a != 0.0 ==> LegacySetPixel(d, x, y, c) == D.SetPixel(d, x, y, c)
    ensures c.a == 0.0 && InGrid(d.width, d.height, x, y) ==> D.PixelAt(LegacySetPixel(d, x, y, c), x, y).a == 0
  {
    if c.a == 0.0 {
      D.ChannelByteEnds(c.a);
    }
  }

  lemma LegacySetPixelKeepsOthers(d: D.PixelDrawer, x: int, y: int, c: RGB, x': int, y': int)
    requires D.WellFormed(d) && InGrid(d.width, d.height, x', y') && (x', y') != (x, y)
    ensures D.PixelAt(LegacySetPixel(d, x, y, c), x', y') == D.PixelAt(d, x', y')
  {
    PutKeepsOthers(d, x, y, D.Bytes(c), x', y');
  }

  /** r is d with every image pixel the stroke covers in colour c and every
      other pixel as before. */
  ghost predicate InkedBy(d: D.PixelDrawer, r: D.PixelDrawer, st: Stroke, c: RGB) {
    && D.WellFormed(d) && D.WellFormed(r) && r.width == d.width && r.height == d.height
    && forall x, y :: InGrid(d.width, d.height, x, y) ==>
         D.PixelAt(r, x, y) == if Covers(st, x, y) then D.Bytes(c) else D.PixelAt(d, x, y)
  }

  lemma InkStep(d: D.PixelDrawer, r: D.PixelDrawer, st: Stroke, st': Stroke, c: RGB, x: int, y: int)
    requires InkedBy(d, r, st, c)
    requires forall x', y' :: Covers(st', x', y') <==> Covers(st, x', y') || (x', y') == (x, y)
    ensures InkedBy(d, LegacySetPixel(r, x, y, c), st', c)
  {
    var r' := LegacySetPixel(r, x, y, c);
    forall x', y' | InGrid(d.width, d.height, x', y')
      ensures D.PixelAt(r', x', y') == if Covers(st', x', y') then D.Bytes(c) else D.PixelAt(d, x', y')
    {
      if (x', y') != (x, y) {
        LegacySetPixelKeepsOthers(r, x, y, c, x', y');
      }
    }
  }

  /** Two neighbouring pixels of a row, as one step of a slanted line. */
  lemma InkPairStep(d: D.PixelDrawer, r: D.PixelDrawer, st: Stroke, st': Stroke, c: RGB, x: int, y: int)
    requires InkedBy(d, r, st, c)
    requires forall x', y' :: Covers(st', x', y') <==> Covers(st, x', y') || (y' == y && (x' == x || x' == x + 1))
    ensures InkedBy(d, LegacySetPixel(LegacySetPixel(r, x, y, c), x + 1, y, c), st', c)
  {
    var r1 := LegacySetPixel(r, x, y, c);
    var r2 := LegacySetPixel(r1, x + 1, y, c);
    forall x', y' | InGrid(d.width, d.height, x', y')
      ensures D.PixelAt(r2, x', y') == if Covers(st', x', y') then D.Bytes(c) else D.PixelAt(d, x', y')
    {
      if (x', y') != (x + 1, y) {
        LegacySetPixelKeepsOthers(r1, x + 1, y, c, x', y');
        if (x', y') != (x, y) {
          LegacySetPixelKeepsOthers(r, x, y, c, x', y');
        }
      }
    }
  }

  /** One step of a slanted line on the canvas: the pair at step k's cells
      turns the first k steps of the stroke into the first k + 1. */
  lemma InkSlantStep(d: D.PixelDrawer, r: D.PixelDrawer, line: Line, start: Point, k: nat, c: RGB, x: int, y: int)
    requires line == SlantDown || line == SlantUp
    requires InkedBy(d, r, Stroke(line, start, 2 * k), c)
    requires x == start.x + 2 * k && y == (if line == SlantDown then start.y + k else start.y - k)
    ensures InkedBy(d, LegacySetPixel(LegacySetPixel(r, x, y, c), x + 1, y, c), Stroke(line, start, 2 * (k + 1)), c)
  {
    forall x', y' ensures Covers(Stroke(line, start, 2 * (k + 1)), x', y') <==> Covers(Stroke(line, start, 2 * k), x', y') || (y' == y && (x' == x || x' == x + 1)) {
      SlantGrows(line, start, k, x', y');
    }
    InkPairStep(d, r, Stroke(line, start, 2 * k), Stroke(line, start, 2 * (k + 1)), c, x, y);
  }

  /** After Steps(distance) steps the first k steps are the whole stroke. */
  lemma InkSlantDone(d: D.PixelDrawer, r: D.PixelDrawer, line: Line, start: Point, distance: int, k: nat, c: RGB)
    requires line == SlantDown || line == SlantUp
    requires InkedBy(d, r, Stroke(line, start, 2 * k), c) && k == Steps(distance)
    ensures InkedBy(d, r, Stroke(line, start, distance), c)
  {
    assert Steps(2 * k) == k;
  }

  /** `drawSlantedLineDown` on the canvas: as the template's, but clipped. */
  method DrawSlantedLineDown(p: Pen, distance: int) returns (r: Pen)
    requires D.WellFormed(p.canvas)
    ensures InkedBy(p.canvas, r.canvas, Stroke(SlantDown, p.cursor, distance), p.color)
    ensures r.cursor == End(Stroke(SlantDown, p.cursor, distance)) && r.color == p.color
  {
    var start := p.cursor.x;
    r := p;
    ghost var k: nat := 0;
    while r.cursor.x < start + distance
      invariant k <= Steps(distance) && r.color == p.color
      invariant r.cursor == Point(start + 2 * k, p.cursor.y + k)
      invariant InkedBy(p.canvas, r.canvas, Stroke(SlantDown, p.cursor, 2 * k), p.color)
      decreases start + distance - r.cursor.x
    {
      StepsIsLoopCount(distance, k);
      var x, y := r.cursor.x, r.cursor.y;
      InkSlantStep(p.canvas, r.canvas, SlantDown, p.cursor, k, p.color, x, y);
      var c2 := LegacySetPixel(LegacySetPixel(r.canvas, x, y, r.color), x + 1, y, r.color);
      r := Pen(c2, Point(x + 2, y + 1), r.color);
      k := k + 1;
    }
    StepsIsLoopCount(distance, k);
    InkSlantDone(p.canvas, r.canvas, SlantDown, p.cursor, distance, k, p.color);
  }

  /** `drawSlantedLineUp` on the canvas. */
  method DrawSlantedLineUp(p: Pen, distance: int) returns (r: Pen)
    requires D.WellFormed(p.canvas)
    ensures InkedBy(p.canvas, r.canvas, Stroke(SlantUp, p.cursor, distance), p.color)
    ensures r.cursor == End(Stroke(SlantUp, p.cursor, distance)) && r.color == p.color
  {
    var start := p.cursor.x;
    r := p;
    ghost var k: nat := 0;
    while r.cursor.x < start + distance
      invariant k <= Steps(distance) && r.color == p.color
      invariant r.cursor == Point(start + 2 * k, p.cursor.y - k)
      invariant InkedBy(p.canvas, r.canvas, Stroke(SlantUp, p.cursor, 2 * k), p.color)
      decreases start + distance - r.cursor.x
    {
      StepsIsLoopCount(distance, k);
      var x, y := r.cursor.x, r.cursor.y;
      InkSlantStep(p.canvas, r.canvas, SlantUp, p.cursor, k, p.color, x, y);
      var c2 := LegacySetPixel(LegacySetPixel(r.canvas, x, y, r.color), x + 1, y, r.color);
      r := Pen(c2, Point(x + 2, y - 1), r.color);
      k := k + 1;
    }
    StepsIsLoopCount(distance, k);
    InkSlantDone(p.canvas, r.canvas, SlantUp, p.cursor, distance, k, p.color);
  }

  /** `drawVerticalLine` on the canvas. */
  method DrawVerticalLine(p: Pen, distance: int) returns (r: Pen)
    requires D.WellFormed(p.canvas)
    ensures InkedBy(p.canvas, r.canvas, Stroke(Vertical, p.cursor, distance), p.color)
    ensures r.cursor == End(Stroke(Vertical, p.cursor, distance)) && r.color == p.color
  {
    var start := p.cursor.y;
    r := p;
    while r.cursor.y < start + distance
      invariant start <= r.cursor.y && (r.cursor.y <= start + distance || r.cursor.y == start)
      invariant r.cursor.x == p.cursor.x && r.color == p.color
      invariant InkedBy(p.canvas, r.canvas, Stroke(Vertical, p.cursor, r.cursor.y - start), p.color)
      decreases start + distance - r.cursor.y
    {
      var x, y := r.cursor.x, r.cursor.y;
      InkStep(p.canvas, r.canvas, Stroke(Vertical, p.cursor, y - start), Stroke(Vertical, p.cursor, y + 1 - start), r.color, x, y);
      r := Pen(LegacySetPixel(r.canvas, x, y, r.color), Point(x, y + 1), r.color);
    }
  }

  /** `drawHorizontalLine` on the canvas. */
  method DrawHorizontalLine(p: Pen, distance: int) returns (r: Pen)
    requires D.WellFormed(p.canvas)
    ensures InkedBy(p.canvas, r.canvas, Stroke(Horizontal, p.cursor, distance), p.color)
    ensures r.cursor == End(Stroke(Horizontal, p.cursor, distance)) && r.color == p.color
  {
    var start := p.cursor.x;
    r := p;
    while r.cursor.x < start + distance
      invariant start <= r.cursor.x && (r.cursor.x <= start + distance || r.cursor.x == start)
      invariant r.cursor.y == p.cursor.y && r.color == p.color
      invariant InkedBy(p.canvas, r.canvas, Stroke(Horizontal, p.cursor, r.cursor.x - start), p.color)
      decreases start + distance - r.cursor.x
    {
      var x, y := r.cursor.x, r.cursor.y;
      InkStep(p.canvas, r.canvas, Stroke(Horizontal, p.cursor, x - start), Stroke(Horizontal, p.cursor, x + 1 - start), r.color, x, y);
      r := Pen(LegacySetPixel(r.canvas, x, y, r.color), Point(x + 1, y), r.color);
    }
  }

  // ----- pixel2pixel -----

  /** What a face tag puts on the canvas: nothing where no stroke was
      drawn, else the face's palette colour. */
  function Tint(p: LegacyPalette, f: Face): Option<RGB> {
    if f == Transparent then None else Some(Ink(p, f))
  }

  /** r is d0 with the stroke list drawn on it in the palette's colours,
      later strokes over earlier ones, clipped to the image. */
  ghost predicate DrawnOn(d0: D.PixelDrawer, r: D.PixelDrawer, p: LegacyPalette, strokes: seq<St.FaceStroke>) {
    && D.WellFormed(d0) && D.WellFormed(r) && r.width == d0.width && r.height == d0.height
    && forall x, y :: InGrid(d0.width, d0.height, x, y) ==>
         D.PixelAt(r, x, y) == R.Overlay(D.PixelAt(d0, x, y), Tint(p, St.Painted(strokes, x, y)))
  }

  lemma DrawnStep(d0: D.PixelDrawer, r: D.PixelDrawer, r': D.PixelDrawer, p: LegacyPalette, strokes: seq<St.FaceStroke>, st: Stroke, f: Face)
    requires DrawnOn(d0, r, p, strokes) && InkedBy(r, r', st, Ink(p, f)) && f != Transparent
    ensures DrawnOn(d0, r', p, strokes + [St.FaceStroke(st, f)])
  {
    var next := strokes + [St.FaceStroke(st, f)];
    assert next[..|next| - 1] == strokes;
  }

  /** The stroke list moved by (dx, dy). */
  function Placed(strokes: seq<St.FaceStroke>, dx: int, dy: int): (r: seq<St.FaceStroke>)
    ensures |r| == |strokes|
  {
    seq(|strokes|, k requires 0 <= k < |strokes| => St.FaceStroke(Translate(strokes[k].stroke, dx, dy), strokes[k].face))
  }

  lemma PlacedConcat(a: seq<St.FaceStroke>, b: seq<St.FaceStroke>, dx: int, dy: int)
    ensures Placed(a + b, dx, dy) == Placed(a, dx, dy) + Placed(b, dx, dy)
  {
  }

  /** A moved drawing leaves at each pixel what the original leaves at the
      pixel moved back. */
  lemma {:induction false} PaintedPlaced(strokes: seq<St.FaceStroke>, dx: int, dy: int, x: int, y: int)
    ensures St.Painted(Placed(strokes, dx, dy), x, y) == St.Painted(strokes, x - dx, y - dy)
  {
    if |strokes| > 0 {
      var n := |strokes| - 1;
      assert Placed(strokes, dx, dy)[..n] == Placed(strokes[..n], dx, dy);
      TranslateCovers(strokes[n].stroke, dx, dy, x - dx, y - dy);
      PaintedPlaced(strokes[..n], dx, dy, x, y);
    }
  }

  /** One primitive call in the pen's colour, dispatched on the line kind. */
  method Draw(p: Pen, line: Line, distance: int) returns (r: Pen)
    requires D.WellFormed(p.canvas)
    ensures InkedBy(p.canvas, r.canvas, Stroke(line, p.cursor, distance), p.color)
    ensures r.cursor == End(Stroke(line, p.cursor, distance)) && r.color == p.color
  {
    match line
    case SlantDown => r := DrawSlantedLineDown(p, distance);
    case SlantUp => r := DrawSlantedLineUp(p, distance);
    case Vertical => r := DrawVerticalLine(p, distance);
    case Horizontal => r := DrawHorizontalLine(p, distance);
  }

  /** Draws one listed stroke of face f from the current cursor and
      records it. */
  method DrawListed(p: Pen, line: Line, distance: int, ghost d0: D.PixelDrawer, ghost pal: LegacyPalette, ghost f: Face,
                    ghost strokes: seq<St.FaceStroke>)
      returns (r: Pen, ghost after: seq<St.FaceStroke>)
    requires DrawnOn(d0, p.canvas, pal, strokes) && p.color == Ink(pal, f) && f != Transparent
    ensures after == strokes + [St.FaceStroke(Stroke(line, p.cursor, distance), f)]
    ensures DrawnOn(d0, r.canvas, pal, after)
    ensures r.cursor == End(Stroke(line, p.cursor, distance)) && r.color == p.color
  {
    r := Draw(p, line, distance);
    DrawnStep(d0, p.canvas, r.canvas, pal, strokes, Stroke(line, p.cursor, distance), f);
    after := strokes + [St.FaceStroke(Stroke(line, p.cursor, distance), f)];
  }

  function MoveTo(p: Pen, x: int, y: int): Pen { p.(cursor := Point(x, y)) }
  function MoveRelativeTo(p: Pen, dx: int, dy: int): Pen { p.(cursor := Point(p.cursor.x + dx, p.cursor.y + dy)) }
  function SetColor(p: Pen, c: RGB): Pen { p.(color := c) }

  /** The faces of `pixel2pixel`, each drawing the stencil's strokes of
      that face moved so that the stencil's (0, s + s/2) lands on (x, y). */
  method LeftFace(p: Pen, pal: LegacyPalette, s: int, x: int, y: int, ghost d0: D.PixelDrawer, ghost before: seq<St.FaceStroke>)
      returns (r: Pen)
    requires St.ValidSide(s) && DrawnOn(d0, p.canvas, pal, before)
    ensures DrawnOn(d0, r.canvas, pal, before + Placed(St.LeftStrokes(s), x, y - s - St.Half(s)))
  {
    ghost var strokes := Placed(St.LeftStrokes(s), x, y - s - St.Half(s));
    r := SetColor(p, pal.left);
    ghost var done := before;
    assert before + strokes[..0] == before;
    var i := 1;
    while i < s
      invariant 1 <= i <= s && r.color == pal.left
      invariant done == before + strokes[..i - 1] && DrawnOn(d0, r.canvas, pal, done)
    {
      r := MoveTo(r, x, y + i - s);
      r, done := DrawListed(r, SlantDown, s, d0, pal, Left, done);
      assert done == before + strokes[..i];
      i := i + 1;
    }
    assert strokes[..s - 1] == strokes;
  }

  method RightFace(p: Pen, pal: LegacyPalette, s: int, x: int, y: int, ghost d0: D.PixelDrawer, ghost before: seq<St.FaceStroke>)
      returns (r: Pen)
    requires St.ValidSide(s) && DrawnOn(d0, p.canvas, pal, before)
    ensures DrawnOn(d0, r.canvas, pal, before + Placed(St.RightStrokes(s), x, y - s - St.Half(s)))
  {
    var o := St.Half(s);
    ghost var strokes := Placed(St.RightStrokes(s), x, y - s - o);
    r := SetColor(p, pal.right);
    ghost var done := before;
    assert before + strokes[..0] == before;
    var i := 1;
    while i < s
      invariant 1 <= i <= s && r.color == pal.right
      invariant done == before + strokes[..i - 1] && DrawnOn(d0, r.canvas, pal, done)
    {
      r := MoveTo(r, x + s - 1, y + o - 1 + i - s);
      r, done := DrawListed(r, SlantUp, s, d0, pal, Right, done);
      assert done == before + strokes[..i];
      i := i + 1;
    }
    assert strokes[..s - 1] == strokes;
  }

  /** The placed top strokes up to pair i are those up to pair i - 1 and
      then pair i's upward and downward stroke from (x + 2i, y - s). */
  lemma PlacedTopPair(s: int, i: int, x: int, y: int, before: seq<St.FaceStroke>)
    requires St.ValidSide(s) && 1 <= i < s - 1
    ensures before + Placed(St.TopStrokes(s), x, y - s - St.Half(s))[..2 * (i - 1)]
              + [St.FaceStroke(Stroke(SlantUp, Point(x + 2 * i, y - s), s - i - 1), Top)]
              + [St.FaceStroke(Stroke(SlantDown, Point(x + 2 * i, y - s), s - i - 1), Top)]
            == before + Placed(St.TopStrokes(s), x, y - s - St.Half(s))[..2 * i]
  {
    St.TopPairAt(s, i);
    St.PrefixGrowsByTwo(before, Placed(St.TopStrokes(s), x, y - s - St.Half(s)), 2 * (i - 1));
  }

  /** One pass of `topFace`'s loop: the upward and the downward stroke of
      pair i. */
  method TopPair(p: Pen, pal: LegacyPalette, s: int, i: int, x: int, y: int, ghost d0: D.PixelDrawer, ghost before: seq<St.FaceStroke>)
      returns (r: Pen)
    requires St.ValidSide(s) && 1 <= i < s - 1 && p.color == pal.top
    requires DrawnOn(d0, p.canvas, pal, before + Placed(St.TopStrokes(s), x, y - s - St.Half(s))[..2 * (i - 1)])
    ensures r.color == pal.top
    ensures DrawnOn(d0, r.canvas, pal, before + Placed(St.TopStrokes(s), x, y - s - St.Half(s))[..2 * i])
  {
    ghost var done := before + Placed(St.TopStrokes(s), x, y - s - St.Half(s))[..2 * (i - 1)];
    r := MoveTo(p, x + i * 2, y - s);
    r, done := DrawListed(r, SlantUp, s - i - 1, d0, pal, Top, done);
    r := MoveTo(r, x + i * 2, y - s);
    r, done := DrawListed(r, SlantDown, s - i - 1, d0, pal, Top, done);
    PlacedTopPair(s, i, x, y, before);
  }

  method TopFace(p: Pen, pal: LegacyPalette, s: int, x: int, y: int, ghost d0: D.PixelDrawer, ghost before: seq<St.FaceStroke>)
      returns (r: Pen)
    requires St.ValidSide(s) && DrawnOn(d0, p.canvas, pal, before)
    ensures DrawnOn(d0, r.canvas, pal, before + Placed(St.TopStrokes(s), x, y - s - St.Half(s)))
  {
    ghost var strokes := Placed(St.TopStrokes(s), x, y - s - St.Half(s));
    r := SetColor(p, pal.top);
    assert before + strokes[..0] == before;
    var i := 1;
    while i < s - 1
      invariant 1 <= i <= s - 1 && r.color == pal.top
      invariant DrawnOn(d0, r.canvas, pal, before + strokes[..2 * (i - 1)])
    {
      r := TopPair(r, pal, s, i, x, y, d0, before);
      i := i + 1;
    }
    assert strokes[..2 * (s - 2)] == strokes;
  }

  method OutlineFace(p: Pen, pal: LegacyPalette, s: int, x: int, y: int, ghost d0: D.PixelDrawer, ghost before: seq<St.FaceStroke>)
      returns (r: Pen)
    requires St.ValidSide(s) && DrawnOn(d0, p.canvas, pal, before)
    ensures DrawnOn(d0, r.canvas, pal, before + Placed(St.OutlineStrokes(s), x, y - s - St.Half(s)))
  {
    St.EvenSteps(s);
    ghost var done := before;
    r := SetColor(p, pal.outline);
    r := MoveTo(r, x, y);
    r, done := DrawListed(r, SlantDown, s, d0, pal, Outline, done);
    r := MoveRelativeTo(r, -1, -1);
    r, done := DrawListed(r, SlantUp, s, d0, pal, Outline, done);
    r := MoveTo(r, x, y - s);
    r, done := DrawListed(r, Vertical, s, d0, pal, Outline, done);
    r := MoveTo(r, x + (2 * s - 1) - 1, y - s);
    r, done := DrawListed(r, Vertical, s, d0, pal, Outline, done);
    r := MoveTo(r, x, y - s);
    r, done := DrawListed(r, SlantUp, s, d0, pal, Outline, done);
    r := MoveRelativeTo(r, -1, 1);
    r, done := DrawListed(r, SlantDown, s, d0, pal, Outline, done);
    assert done == before + Placed(St.OutlineStrokes(s), x, y - s - St.Half(s));
  }

  method HighlightFace(p: Pen, pal: LegacyPalette, s: int, x: int, y: int, ghost d0: D.PixelDrawer, ghost before: seq<St.FaceStroke>)
      returns (r: Pen)
    requires St.ValidSide(s) && DrawnOn(d0, p.canvas, pal, before)
    ensures DrawnOn(d0, r.canvas, pal, before + Placed(St.HighlightStrokes(s), x, y - s - St.Half(s)))
  {
    St.EvenSteps(s);
    var o := St.Half(s);
    ghost var done := before;
    r := SetColor(p, pal.highlight);
    r := MoveTo(r, x + 2, y - s + 1);
    r, done := DrawListed(r, SlantDown, s - 2, d0, pal, Highlight, done);
    r := MoveRelativeTo(r, -1, -1);
    r, done := DrawListed(r, SlantUp, s - 2, d0, pal, Highlight, done);
    r := MoveTo(r, x + s - 1, y + o - 1 - s);
    r, done := DrawListed(r, Vertical, s, d0, pal, Highlight, done);
    assert done == before + Placed(St.HighlightStrokes(s), x, y - s - o);
  }

  method CornerFace(p: Pen, pal: LegacyPalette, s: int, x: int, y: int, ghost d0: D.PixelDrawer, ghost before: seq<St.FaceStroke>)
      returns (r: Pen)
    requires St.ValidSide(s) && DrawnOn(d0, p.canvas, pal, before)
    ensures DrawnOn(d0, r.canvas, pal, before + Placed(St.CornerStrokes(s), x, y - s - St.Half(s)))
  {
    var o := St.Half(s);
    ghost var done := before;
    r := SetColor(p, pal.cornerHighlight);
    r := MoveTo(r, x + s - 1, y + o - 1 - s);
    r, done := DrawListed(r, Vertical, 3, d0, pal, CornerHighlight, done);
    r := MoveTo(r, x + s - 2, y + o - 1 - s);
    r, done := DrawListed(r, Horizontal, 3, d0, pal, CornerHighlight, done);
    assert done == before + Placed(St.CornerStrokes(s), x, y - s - o);
  }

  /** Off the stencil's grid no stroke reaches, so nothing is painted. */
  lemma StencilBlankOutside(s: int, tx: int, ty: int)
    requires St.ValidSide(s) && !InGrid(2 * s - 1, 2 * s, tx, ty)
    ensures St.Painted(St.StencilStrokes(s), tx, ty) == Transparent
  {
    var strokes := St.StencilStrokes(s);
    St.StencilFits(s);
    forall k | 0 <= k < |strokes|
      ensures !Covers(strokes[k].stroke, tx, ty)
    {
      if Covers(strokes[k].stroke, tx, ty) {
        FitsMeansInside(strokes[k].stroke, 2 * s - 1, 2 * s, tx, ty);
      }
    }
    St.PaintedIsLastCover(strokes, tx, ty);
  }

  /** The stencil's cell array holds the painted tag of each grid cell. */
  lemma StencilCellAt(s: int, tx: int, ty: int)
    requires St.ValidSide(s) && InGrid(2 * s - 1, 2 * s, tx, ty)
    ensures 0 <= Index(2 * s - 1, tx, ty) < |St.StencilCells(s)|
    ensures St.StencilCells(s)[Index(2 * s - 1, tx, ty)] == St.Painted(St.StencilStrokes(s), tx, ty)
  {
    IndexInRange(2 * s - 1, 2 * s, tx, ty);
    RowMajorDecode(2 * s - 1, tx, ty);
  }

  /** The older build's tint of a tag is the later build's face colour
      under the default pattern, kept exactly when it is not transparent. */
  lemma TintIsFaceColor(c: RGB, f: Face)
    requires HSLDefined(c) && c.a != 0.0
    ensures Tint(BuildLegacyPalette(c).value, f) == R.Visible(FaceColor(MakePalette(c), DefaultPattern, f))
  {
    LegacyPaletteIsTopLeft(c, f);
  }

  /** The unplaced cube, stamped at (dx, dy), on the grid. */
  lemma CubeInside(c: RGB, s: int, dx: int, dy: int, px: int, py: int)
    requires St.ValidSide(s) && HSLDefined(c) && c.a != 0.0 && InGrid(2 * s - 1, 2 * s, px - dx, py - dy)
    ensures Tint(BuildLegacyPalette(c).value, St.Painted(St.StencilStrokes(s), px - dx, py - dy))
            == R.CubeColor(St.StencilCells(s), 2 * s - 1, 2 * s, DefaultPattern, R.StampSpec(Point(dx, dy), c), px, py)
  {
    var f := St.Painted(St.StencilStrokes(s), px - dx, py - dy);
    StencilCellAt(s, px - dx, py - dy);
    R.CubeColorOfCell(St.StencilCells(s), 2 * s - 1, 2 * s, DefaultPattern, Point(dx, dy), c, px, py, f);
    TintIsFaceColor(c, f);
  }

  /** The unplaced cube, stamped at (dx, dy): off the grid. */
  lemma CubeOutside(c: RGB, s: int, dx: int, dy: int, px: int, py: int)
    requires St.ValidSide(s) && HSLDefined(c) && c.a != 0.0 && !InGrid(2 * s - 1, 2 * s, px - dx, py - dy)
    ensures Tint(BuildLegacyPalette(c).value, St.Painted(St.StencilStrokes(s), px - dx, py - dy))
            == R.CubeColor(St.StencilCells(s), 2 * s - 1, 2 * s, DefaultPattern, R.StampSpec(Point(dx, dy), c), px, py)
  {
    var cols := Colorize(St.StencilCells(s), DefaultPattern, MakePalette(c));
    StencilBlankOutside(s, px - dx, py - dy);
    assert R.CubeColor(St.StencilCells(s), 2 * s - 1, 2 * s, DefaultPattern, R.StampSpec(Point(dx, dy), c), px, py)
        == R.StampColor(cols, 2 * s - 1, 2 * s, Point(dx, dy), px, py);
  }

  /** The legacy cube drawn with corner (dx, dy) puts on each pixel
      exactly what the later build's cube template, coloured with the
      sun-at-top-left pattern and stamped at (dx, dy), writes there:
      outside the cube nothing, since every stencil stroke stays inside
      the cube's grid. */
  lemma TintIsCube(c: RGB, s: int, dx: int, dy: int, px: int, py: int)
    requires St.ValidSide(s) && HSLDefined(c) && c.a != 0.0
    ensures Tint(BuildLegacyPalette(c).value, St.Painted(Placed(St.StencilStrokes(s), dx, dy), px, py))
            == R.CubeColor(St.StencilCells(s), 2 * s - 1, 2 * s, DefaultPattern, R.StampSpec(Point(dx, dy), c), px, py)
  {
    PaintedPlaced(St.StencilStrokes(s), dx, dy, px, py);
    if InGrid(2 * s - 1, 2 * s, px - dx, py - dy) {
      CubeInside(c, s, dx, dy, px, py);
    } else {
      CubeOutside(c, s, dx, dy, px, py);
    }
  }

  /** `pixel2pixel(x, y, color)`: looks the palette up (recording it), does
      nothing for a colour without one, and otherwise draws the cube face
      by face with its cursor base at (x, y). On every canvas pixel the
      result is the later build's stamp of the sun-at-top-left cube with
      corner (x, y - s - s/2), clipped to the canvas. */
  method Pixel2Pixel(p: Pen, lut: map<ColorKey, Option<LegacyPalette>>, c: Config, x: int, y: int, color: RGB)
      returns (r: Pen, lut': map<ColorKey, Option<LegacyPalette>>)
    requires Consistent(c) && St.ValidSide(c.side) && D.WellFormed(p.canvas)
    requires LutCoherent(lut) && HSLDefined(color)
    ensures LutCoherent(lut') && lut'.Keys == lut.Keys + {Key(color)}
    ensures D.WellFormed(r.canvas) && r.canvas.width == p.canvas.width && r.canvas.height == p.canvas.height
    ensures forall px, py :: InGrid(p.canvas.width, p.canvas.height, px, py) ==>
              D.PixelAt(r.canvas, px, py) == R.Overlay(D.PixelAt(p.canvas, px, py),
                R.CubeColor(St.StencilCells(c.side), 2 * c.side - 1, 2 * c.side, DefaultPattern,
                            R.StampSpec(CubeCorner(c, Point(x, y)), color), px, py))
  {
    var answer := GetColorPalette(lut, color);
    lut' := answer.0;
    r := DrawIfPalette(p, answer.1, c, x, y, color);
  }

  /** The drawing half of `pixel2pixel`: with a palette, the cube at the
      cursor; without one (alpha 0), nothing. */
  method DrawIfPalette(p: Pen, pal: Option<LegacyPalette>, c: Config, x: int, y: int, color: RGB) returns (r: Pen)
    requires Consistent(c) && St.ValidSide(c.side) && D.WellFormed(p.canvas)
    requires HSLDefined(color) && pal == BuildLegacyPalette(color)
    ensures D.WellFormed(r.canvas) && r.canvas.width == p.canvas.width && r.canvas.height == p.canvas.height
    ensures forall px, py :: InGrid(p.canvas.width, p.canvas.height, px, py) ==>
              D.PixelAt(r.canvas, px, py) == R.Overlay(D.PixelAt(p.canvas, px, py),
                R.CubeColor(St.StencilCells(c.side), 2 * c.side - 1, 2 * c.side, DefaultPattern,
                            R.StampSpec(CubeCorner(c, Point(x, y)), color), px, py))
  {
    if pal.None? {
      r := p;
      NoCubeWithoutPalette(p.canvas, c, x, y, color);
    } else {
      r := DrawCube(p, pal.value, c.side, x, y);
      CubeDrawnAt(p.canvas, r.canvas, color, pal.value, c, x, y);
    }
  }

  /** A colour of alpha 0 has no palette and its cube writes nothing. */
  lemma NoCubeWithoutPalette(d: D.PixelDrawer, c: Config, x: int, y: int, color: RGB)
    requires Consistent(c) && St.ValidSide(c.side) && D.WellFormed(d) && HSLDefined(color) && color.a == 0.0
    ensures forall px, py :: InGrid(d.width, d.height, px, py) ==>
              D.PixelAt(d, px, py) == R.Overlay(D.PixelAt(d, px, py),
                R.CubeColor(St.StencilCells(c.side), 2 * c.side - 1, 2 * c.side, DefaultPattern,
                            R.StampSpec(CubeCorner(c, Point(x, y)), color), px, py))
  {
  }

  lemma CubeDrawn(d0: D.PixelDrawer, r: D.PixelDrawer, color: RGB, pal: LegacyPalette, s: int, dx: int, dy: int)
    requires St.ValidSide(s) && HSLDefined(color) && BuildLegacyPalette(color) == Some(pal)
    requires DrawnOn(d0, r, pal, Placed(St.StencilStrokes(s), dx, dy))
    ensures forall px, py :: InGrid(d0.width, d0.height, px, py) ==>
              D.PixelAt(r, px, py) == R.Overlay(D.PixelAt(d0, px, py),
                R.CubeColor(St.StencilCells(s), 2 * s - 1, 2 * s, DefaultPattern, R.StampSpec(Point(dx, dy), color), px, py))
  {
    forall px, py | InGrid(d0.width, d0.height, px, py)
      ensures D.PixelAt(r, px, py) == R.Overlay(D.PixelAt(d0, px, py),
                R.CubeColor(St.StencilCells(s), 2 * s - 1, 2 * s, DefaultPattern, R.StampSpec(Point(dx, dy), color), px, py))
    {
      TintIsCube(color, s, dx, dy, px, py);
    }
  }

  /** The same, for the cube the configuration places at the pixel (x, y). */
  lemma CubeDrawnAt(d0: D.PixelDrawer, r: D.PixelDrawer, color: RGB, pal: LegacyPalette, c: Config, x: int, y: int)
    requires Consistent(c) && St.ValidSide(c.side) && HSLDefined(color) && BuildLegacyPalette(color) == Some(pal)
    requires DrawnOn(d0, r, pal, Placed(St.StencilStrokes(c.side), x, y - c.side - St.Half(c.side)))
    ensures forall px, py :: InGrid(d0.width, d0.height, px, py) ==>
              D.PixelAt(r, px, py) == R.Overlay(D.PixelAt(d0, px, py),
                R.CubeColor(St.StencilCells(c.side), 2 * c.side - 1, 2 * c.side, DefaultPattern, R.StampSpec(CubeCorner(c, Point(x, y)), color), px, py))
  {
    CubeDrawn(d0, r, color, pal, c.side, x, y - c.side - St.Half(c.side));
    assert CubeCorner(c, Point(x, y)) == Point(x, y - c.side - St.Half(c.side));
  }

  /** The drawing calls of `pixel2pixel` once the palette is known. */
  method DrawCube(p: Pen, pal: LegacyPalette, s: int, x: int, y: int) returns (r: Pen)
    requires St.ValidSide(s) && D.WellFormed(p.canvas)
    ensures DrawnOn(p.canvas, r.canvas, pal, Placed(St.StencilStrokes(s), x, y - s - St.Half(s)))
  {
    ghost var d0 := p.canvas;
    ghost var dy := y - s - St.Half(s);
    assert DrawnOn(d0, d0, pal, []);
    r := LeftFace(p, pal, s, x, y, d0, []);
    ghost var done := [] + Placed(St.LeftStrokes(s), x, dy);
    r := RightFace(r, pal, s, x, y, d0, done);
    done := done + Placed(St.RightStrokes(s), x, dy);
    r := TopFace(r, pal, s, x, y, d0, done);
    done := done + Placed(St.TopStrokes(s), x, dy);
    r := OutlineFace(r, pal, s, x, y, d0, done);
    done := done + Placed(St.OutlineStrokes(s), x, dy);
    r := HighlightFace(r, pal, s, x, y, d0, done);
    done := done + Placed(St.HighlightStrokes(s), x, dy);
    r := CornerFace(r, pal, s, x, y, d0, done);
    done := done + Placed(St.CornerStrokes(s), x, dy);
    PlacedStencil(s, x, dy);
  }

  lemma PlacedStencil(s: int, dx: int, dy: int)
    requires St.ValidSide(s)
    ensures [] + Placed(St.LeftStrokes(s), dx, dy) + Placed(St.RightStrokes(s), dx, dy) + Placed(St.TopStrokes(s), dx, dy)
              + Placed(St.OutlineStrokes(s), dx, dy) + Placed(St.HighlightStrokes(s), dx, dy) + Placed(St.CornerStrokes(s), dx, dy)
            == Placed(St.StencilStrokes(s), dx, dy)
  {
    var L, Rt, T, O, H, C := St.LeftStrokes(s), St.RightStrokes(s), St.TopStrokes(s), St.OutlineStrokes(s), St.HighlightStrokes(s), St.CornerStrokes(s);
    PlacedConcat(L, Rt, dx, dy);
    PlacedConcat(L + Rt, T, dx, dy);
    PlacedConcat(L + Rt + T, O, dx, dy);
    PlacedConcat(L + Rt + T + O, H, dx, dy);
    PlacedConcat(L + Rt + T + O + H, C, dx, dy);
  }

  // ----- the renders -----

  /** The stamps moved one row down. */
  function Lowered(stamps: seq<R.StampSpec>): (r: seq<R.StampSpec>)
    ensures |r| == |stamps|
    ensures forall k :: 0 <= k < |r| ==> r[k].color == stamps[k].color
  {
    seq(|stamps|, k requires 0 <= k < |stamps| =>
      R.StampSpec(Point(stamps[k].origin.x, stamps[k].origin.y + 1), stamps[k].color))
  }

  /** Lowering commutes with dropping the last stamp, and lowers that stamp. */
  lemma LoweredSplit(stamps: seq<R.StampSpec>)
    requires |stamps| > 0
    ensures Lowered(stamps)[..|stamps| - 1] == Lowered(stamps[..|stamps| - 1])
    ensures var st := stamps[|stamps| - 1];
      Lowered(stamps)[|stamps| - 1] == R.StampSpec(Point(st.origin.x, st.origin.y + 1), st.color)
  {
  }

  /** Lowering every stamp lowers the whole reference canvas by one row. */
  lemma {:induction false} ExpectedLowered(cells: seq<Face>, w: int, h: int, pat: Pattern, stamps: seq<R.StampSpec>, px: int, py: int)
    requires w >= 0 && h >= 0 && |cells| == w * h
    requires forall k :: 0 <= k < |stamps| ==> HSLDefined(stamps[k].color)
    ensures R.Expected(cells, w, h, pat, Lowered(stamps), px, py + 1) == R.Expected(cells, w, h, pat, stamps, px, py)
  {
    if |stamps| > 0 {
      var n := |stamps| - 1;
      LoweredSplit(stamps);
      ExpectedLowered(cells, w, h, pat, stamps[..n], px, py);
      CubeLowered(cells, w, h, pat, stamps[n], px, py);
    }
  }

  lemma CubeLowered(cells: seq<Face>, w: int, h: int, pat: Pattern, st: R.StampSpec, px: int, py: int)
    requires w >= 0 && h >= 0 && |cells| == w * h && HSLDefined(st.color)
    ensures R.CubeColor(cells, w, h, pat, R.StampSpec(Point(st.origin.x, st.origin.y + 1), st.color), px, py + 1)
            == R.CubeColor(cells, w, h, pat, st, px, py)
  {
    if st.color.a != 0.0 {
      var colors := Colorize(cells, pat, MakePalette(st.color));
      R.StampColorShift(colors, w, h, st.origin, px, py, 0, 1);
      assert Point(st.origin.x + 0, st.origin.y + 1) == Point(st.origin.x, st.origin.y + 1);
    }
  }

  /** The render invariant: palette table coherent, canvas of the given
      size equal to the reference for the stamps so far, under the
      sun-at-top-left pattern. */
  ghost predicate Rendered(p: Pen, lut: map<ColorKey, Option<LegacyPalette>>, c: Config, size: Point, stamps: seq<R.StampSpec>)
    requires forall k :: 0 <= k < |stamps| ==> HSLDefined(stamps[k].color)
  {
    && Consistent(c) && St.ValidSide(c.side) && LutCoherent(lut)
    && p.canvas.width == size.x && p.canvas.height == size.y
    && R.ShowsStamps(p.canvas, c.side, DefaultPattern, stamps)
  }

  /** One `pixel2pixel` call keeps the render invariant. */
  method StampNext(p: Pen, lut: map<ColorKey, Option<LegacyPalette>>, c: Config, size: Point, ghost stamps: seq<R.StampSpec>,
                   cursor: Point, color: RGB)
      returns (r: Pen, lut': map<ColorKey, Option<LegacyPalette>>)
    requires forall k :: 0 <= k < |stamps| ==> HSLDefined(stamps[k].color)
    requires HSLDefined(color) && Rendered(p, lut, c, size, stamps)
    ensures Rendered(r, lut', c, size, stamps + [R.StampSpec(CubeCorner(c, cursor), color)])
  {
    r, lut' := Pixel2Pixel(p, lut, c, cursor.x, cursor.y, color);
    ghost var next := stamps + [R.StampSpec(CubeCorner(c, cursor), color)];
    assert next[..|stamps|] == stamps;
  }

  /** The stamps of a longer order, lowered: the lowered stamps so far and
      one more cube at the corner the older build's cursor gives. */
  lemma LoweredAppend(mode: R.Mode, c: Config, sp: R.Sprite, order: seq<Point>, p: Point, cursor: Point)
    requires Consistent(c) && R.ValidSprite(sp)
    requires CubeCorner(c, cursor) == Point(R.Origin(mode, c, sp.width, p).x, R.Origin(mode, c, sp.width, p).y + 1)
    ensures Lowered(R.StampsOf(mode, c, sp, order + [p]))
            == Lowered(R.StampsOf(mode, c, sp, order)) + [R.StampSpec(CubeCorner(c, cursor), R.SpriteColor(sp, p.x, p.y))]
  {
    R.StampsOfAppend(mode, c, sp, order, p);
    LoweredSplit(R.StampsOf(mode, c, sp, order + [p]));
    assert R.StampsOf(mode, c, sp, order + [p])[..|order|] == R.StampsOf(mode, c, sp, order);
  }

  /** One iteration of either render's inner loop: the cube of sprite
      pixel (i, j) drawn at the older build's cursor. */
  method StampCell(p: Pen, lut: map<ColorKey, Option<LegacyPalette>>, c: Config, size: Point, sp: R.Sprite, mode: R.Mode,
                   ghost order: seq<Point>, i: int, j: int)
      returns (r: Pen, lut': map<ColorKey, Option<LegacyPalette>>)
    requires Consistent(c) && R.ValidSprite(sp)
    requires Rendered(p, lut, c, size, Lowered(R.StampsOf(mode, c, sp, order)))
    ensures Rendered(r, lut', c, size, Lowered(R.StampsOf(mode, c, sp, order + [Point(i, j)])))
  {
    var color := R.SpriteColor(sp, i, j);
    var cursor := if mode == R.HorizontalMode then LegacyCursorHorizontal(c, sp.width, i, j) else LegacyCursorVertical(c, sp.width, i, j);
    LegacyLayoutAgainstLater(c, sp.width, sp.height, i, j);
    LoweredAppend(mode, c, sp, order, Point(i, j), cursor);
    r, lut' := StampNext(p, lut, c, size, Lowered(R.StampsOf(mode, c, sp, order)), cursor, color);
  }

  /** Either render's inner loop from column i down to column 0 of row j;
      the loop is written as recursion on i. */
  method StampRow(p: Pen, lut: map<ColorKey, Option<LegacyPalette>>, c: Config, size: Point, sp: R.Sprite, mode: R.Mode,
                  ghost done: seq<Point>, i: int, j: int)
      returns (r: Pen, lut': map<ColorKey, Option<LegacyPalette>>)
    requires Consistent(c) && R.ValidSprite(sp) && i >= -1
    requires Rendered(p, lut, c, size, Lowered(R.StampsOf(mode, c, sp, done)))
    ensures Rendered(r, lut', c, size, Lowered(R.StampsOf(mode, c, sp, done + RowRightToLeft(i + 1, j))))
    decreases i + 1
  {
    if i < 0 {
      assert done + RowRightToLeft(i + 1, j) == done;
      r, lut' := p, lut;
    } else {
      var p1, lut1 := StampCell(p, lut, c, size, sp, mode, done, i, j);
      r, lut' := StampRow(p1, lut1, c, size, sp, mode, done + [Point(i, j)], i - 1, j);
      RowStartsAtRight(i + 1, j);
      assert done + [Point(i, j)] + RowRightToLeft(i, j) == done + RowRightToLeft(i + 1, j);
    }
  }

  /** One row of `renderHorizontal`'s outer loop: after rows 0..j - 1,
      row j right to left. */
  method HorizontalRow(p: Pen, lut: map<ColorKey, Option<LegacyPalette>>, c: Config, size: Point, sp: R.Sprite, j: int)
      returns (r: Pen, lut': map<ColorKey, Option<LegacyPalette>>)
    requires Consistent(c) && R.ValidSprite(sp) && j >= 0
    requires Rendered(p, lut, c, size, Lowered(R.StampsOf(R.HorizontalMode, c, sp, OrderHorizontal(sp.width, j))))
    ensures Rendered(r, lut', c, size, Lowered(R.StampsOf(R.HorizontalMode, c, sp, OrderHorizontal(sp.width, j + 1))))
  {
    r, lut' := StampRow(p, lut, c, size, sp, R.HorizontalMode, OrderHorizontal(sp.width, j), sp.width - 1, j);
    assert OrderHorizontal(sp.width, j) + RowRightToLeft(sp.width, j) == OrderHorizontal(sp.width, j + 1);
  }

  /** One row of `renderVertical`'s outer loop: after rows yRes - 1 down
      to j + 1, row j right to left. */
  method VerticalRow(p: Pen, lut: map<ColorKey, Option<LegacyPalette>>, c: Config, size: Point, sp: R.Sprite, j: int)
      returns (r: Pen, lut': map<ColorKey, Option<LegacyPalette>>)
    requires Consistent(c) && R.ValidSprite(sp) && j < sp.height
    requires Rendered(p, lut, c, size, Lowered(R.StampsOf(R.VerticalMode, c, sp, OrderVerticalFrom(sp.width, sp.height, j + 1))))
    ensures Rendered(r, lut', c, size, Lowered(R.StampsOf(R.VerticalMode, c, sp, OrderVerticalFrom(sp.width, sp.height, j))))
  {
    r, lut' := StampRow(p, lut, c, size, sp, R.VerticalMode, OrderVerticalFrom(sp.width, sp.height, j + 1), sp.width - 1, j);
    assert OrderVerticalFrom(sp.width, sp.height, j + 1) + RowRightToLeft(sp.width, j) == OrderVerticalFrom(sp.width, sp.height, j);
  }

  /** `renderHorizontal`'s outer loop from row j to the last row, written
      as recursion on j. */
  method HorizontalRows(p: Pen, lut: map<ColorKey, Option<LegacyPalette>>, c: Config, size: Point, sp: R.Sprite, j: int)
      returns (r: Pen, lut': map<ColorKey, Option<LegacyPalette>>)
    requires Consistent(c) && R.ValidSprite(sp) && 0 <= j <= sp.height
    requires Rendered(p, lut, c, size, Lowered(R.StampsOf(R.HorizontalMode, c, sp, OrderHorizontal(sp.width, j))))
    ensures Rendered(r, lut', c, size, Lowered(R.StampsOf(R.HorizontalMode, c, sp, OrderHorizontal(sp.width, sp.height))))
    decreases sp.height - j
  {
    if j < sp.height {
      var p1, lut1 := HorizontalRow(p, lut, c, size, sp, j);
      r, lut' := HorizontalRows(p1, lut1, c, size, sp, j + 1);
    } else {
      r, lut' := p, lut;
    }
  }

  /** `renderVertical`'s outer loop from row j down to row 0, written as
      recursion on j. */
  method VerticalRows(p: Pen, lut: map<ColorKey, Option<LegacyPalette>>, c: Config, size: Point, sp: R.Sprite, j: int)
      returns (r: Pen, lut': map<ColorKey, Option<LegacyPalette>>)
    requires Consistent(c) && R.ValidSprite(sp) && -1 <= j < sp.height
    requires Rendered(p, lut, c, size, Lowered(R.StampsOf(R.VerticalMode, c, sp, OrderVerticalFrom(sp.width, sp.height, j + 1))))
    ensures Rendered(r, lut', c, size, Lowered(R.StampsOf(R.VerticalMode, c, sp, OrderVertical(sp.width, sp.height))))
    decreases j + 1
  {
    if j < 0 {
      r, lut' := p, lut;
    } else {
      var p1, lut1 := VerticalRow(p, lut, c, size, sp, j);
      r, lut' := VerticalRows(p1, lut1, c, size, sp, j - 1);
    }
  }

  /** A fresh drawer: transparent black canvas, cursor at the corner,
      opaque black pen. */
  method StartRender(c: Config, lut: map<ColorKey, Option<LegacyPalette>>, size: Point) returns (p: Pen)
    requires Consistent(c) && St.ValidSide(c.side) && LutCoherent(lut) && size.x >= 0 && size.y >= 0
    ensures Rendered(p, lut, c, size, [])
  {
    var canvas := D.NewDrawer(size.x, size.y);
    p := Pen(canvas, Point(0, 0), RGB(0.0, 0.0, 0.0, 1.0));
    forall px, py | InGrid(size.x, size.y, px, py)
      ensures D.PixelAt(canvas, px, py) == D.Pixel(0, 0, 0, 0)
    {
      D.OffsetInRange(canvas, px, py);
    }
  }

  /** `renderHorizontal` of the older build: on its one-row-taller canvas
      it draws, in the later build's order, the later build's cubes under
      the sun-at-top-left pattern, each one row lower. */
  method RenderHorizontal(c: Config, sp: R.Sprite, lut: map<ColorKey, Option<LegacyPalette>>)
      returns (canvas: D.PixelDrawer, lut': map<ColorKey, Option<LegacyPalette>>)
    requires Consistent(c) && St.ValidSide(c.side) && c.gap >= 0
    requires R.ValidSprite(sp) && sp.width >= 1 && sp.height >= 1 && LutCoherent(lut)
    ensures LutCoherent(lut')
    ensures canvas.width == LegacyCanvasHorizontal(c, sp.width, sp.height).x
    ensures canvas.height == LegacyCanvasHorizontal(c, sp.width, sp.height).y
    ensures R.ShowsStamps(canvas, c.side, DefaultPattern, Lowered(R.StampsOf(R.HorizontalMode, c, sp, OrderHorizontal(sp.width, sp.height))))
  {
    var xRes, yRes := sp.width, sp.height;
    var size := LegacyCanvasHorizontal(c, xRes, yRes);
    LegacyLayoutAgainstLater(c, xRes, yRes, 0, 0);
    R.CanvasIsPositive(c, xRes, yRes);
    var p := StartRender(c, lut, size);
    p, lut' := HorizontalRows(p, lut, c, size, sp, 0);
    canvas := p.canvas;
  }

  /** `renderVertical` of the older build: the later build's canvas size
      and order, each cube one row lower. */
  method RenderVertical(c: Config, sp: R.Sprite, lut: map<ColorKey, Option<LegacyPalette>>)
      returns (canvas: D.PixelDrawer, lut': map<ColorKey, Option<LegacyPalette>>)
    requires Consistent(c) && St.ValidSide(c.side) && c.gap >= 0
    requires R.ValidSprite(sp) && sp.width >= 1 && sp.height >= 1 && LutCoherent(lut)
    ensures LutCoherent(lut')
    ensures canvas.width == LegacyCanvasVertical(c, sp.width, sp.height).x
    ensures canvas.height == LegacyCanvasVertical(c, sp.width, sp.height).y
    ensures R.ShowsStamps(canvas, c.side, DefaultPattern, Lowered(R.StampsOf(R.VerticalMode, c, sp, OrderVertical(sp.width, sp.height))))
  {
    var xRes, yRes := sp.width, sp.height;
    var size := LegacyCanvasVertical(c, xRes, yRes);
    LegacyLayoutAgainstLater(c, xRes, yRes, 0, 0);
    R.CanvasIsPositive(c, xRes, yRes);
    var p := StartRender(c, lut, size);
    p, lut' := VerticalRows(p, lut, c, size, sp, yRes - 1);
    canvas := p.canvas;
  }

  /** Below its top row, the older build's canvas is the later build's
      canvas (for the sun-at-top-left pattern) moved one row down; in
      vertical mode the later canvas's bottom row falls off. */
  lemma LegacyIsLaterLowered(c: Config, sp: R.Sprite, mode: R.Mode, order: seq<Point>, px: int, py: int)
    requires Consistent(c) && St.ValidSide(c.side) && R.ValidSprite(sp)
    ensures R.Expected(St.StencilCells(c.side), 2 * c.side - 1, 2 * c.side, DefaultPattern, Lowered(R.StampsOf(mode, c, sp, order)), px, py + 1)
            == R.Expected(St.StencilCells(c.side), 2 * c.side - 1, 2 * c.side, DefaultPattern, R.StampsOf(mode, c, sp, order), px, py)
  {
    ExpectedLowered(St.StencilCells(c.side), 2 * c.side - 1, 2 * c.side, DefaultPattern, R.StampsOf(mode, c, sp, order), px, py);
  }
}
