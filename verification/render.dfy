/** The rendering loops of `src/pixify.js`: `_template2pixel` stamps one
    coloured cube onto the canvas buffer, and `renderHorizontal` /
    `renderVertical` stamp every sprite pixel's cube in their order. The
    palette and colouring memo tables are threaded through; the result is
    proved equal to a reference that has no tables and simply lets the
    last stamp covering a canvas pixel decide it. */
module Render {
  import opened Wrappers
  import opened Color
  import opened Pix
  import opened Geometry
  import opened Palettes
  import opened Pixify
  import PM = PaletteManager
  import T = Template
  import St = Stencil
  import D = Drawer

  /** The sprite image: its size and its pixels in row-major order, each
      channel a byte over 255 (`Sprite.getColor`). */
  datatype Sprite = Sprite(width: int, height: int, pixels: seq<RGB>)

  predicate ValidSprite(sp: Sprite) {
    && sp.width >= 0 && sp.height >= 0 && |sp.pixels| == sp.width * sp.height
    && forall i :: 0 <= i < |sp.pixels| ==> ValidRGB(sp.pixels[i])
  }

  /** `getColor(x, y)`: the pixel's colour; outside the image the canvas
      reads transparent black. */
  function SpriteColor(sp: Sprite, x: int, y: int): (r: RGB)
    requires ValidSprite(sp)
    ensures ValidRGB(r) && HSLDefined(r)
    ensures InGrid(sp.width, sp.height, x, y) ==>
              0 <= Index(sp.width, x, y) < |sp.pixels| && r == sp.pixels[Index(sp.width, x, y)]
    ensures !InGrid(sp.width, sp.height, x, y) ==> r == TransparentColor
  {
    if InGrid(sp.width, sp.height, x, y) then
      IndexInRange(sp.width, sp.height, x, y);
      var c := sp.pixels[Index(sp.width, x, y)];
      ValidIsHSLDefined(c);
      c
    else
      ValidIsHSLDefined(TransparentColor);
      TransparentColor
  }

  // ----- one stamp -----

  /** A colour as a write: nothing when it is fully transparent. */
  function Visible(col: RGB): (r: Option<RGB>)
    ensures r.Some? <==> col.a != 0.0
    ensures r.Some? ==> r.value == col
  {
    if col.a != 0.0 then Some(col) else None
  }

  /** The colour a stamp of `colors` (a w-by-h row-major block placed at
      origin o) writes at canvas pixel (px, py): the block's colour there
      unless it is fully transparent or the pixel is off the block. */
  function StampColor(colors: seq<RGB>, w: int, h: int, o: Point, px: int, py: int): (r: Option<RGB>)
    requires w >= 0 && h >= 0 && |colors| == w * h
    ensures r.Some? ==> r.value.a != 0.0
    ensures r.Some? ==> InGrid(w, h, px - o.x, py - o.y)
    ensures InGrid(w, h, px - o.x, py - o.y) ==>
              && 0 <= Index(w, px - o.x, py - o.y) < |colors|
              && (r.Some? <==> colors[Index(w, px - o.x, py - o.y)].a != 0.0)
              && (r.Some? ==> r.value == colors[Index(w, px - o.x, py - o.y)])
  {
    var tx, ty := px - o.x, py - o.y;
    if InGrid(w, h, tx, ty) then
      IndexInRange(w, h, tx, ty);
      Visible(colors[Index(w, tx, ty)])
    else None
  }

  /** On the block, a stamp writes the block's colour unless it is fully
      transparent. */
  lemma StampColorInside(colors: seq<RGB>, w: int, h: int, o: Point, px: int, py: int)
    requires w >= 0 && h >= 0 && |colors| == w * h && InGrid(w, h, px - o.x, py - o.y)
    ensures 0 <= Index(w, px - o.x, py - o.y) < |colors|
    ensures StampColor(colors, w, h, o, px, py) == Visible(colors[Index(w, px - o.x, py - o.y)])
  {
    IndexInRange(w, h, px - o.x, py - o.y);
  }

  /** A pixel as it is after a possible write. */
  function Overlay(under: D.Pixel, c: Option<RGB>): D.Pixel {
    match c
    case None => under
    case Some(col) => D.Bytes(col)
  }

  /** The block cell (tx, ty) has been visited by the column-major loops
      once they have reached column x, row y. */
  predicate Visited(tx: int, ty: int, x: int, y: int) {
    tx < x || (tx == x && ty < y)
  }

  /** The canvas after the loops have visited every block cell before
      (x, y). */
  ghost predicate StampedUpTo(d: D.PixelDrawer, r: D.PixelDrawer, colors: seq<RGB>, w: int, h: int, o: Point, x: int, y: int)
    requires D.WellFormed(d) && w >= 0 && h >= 0 && |colors| == w * h
  {
    && D.WellFormed(r) && r.width == d.width && r.height == d.height
    && forall px, py :: InGrid(d.width, d.height, px, py) ==>
         D.PixelAt(r, px, py) == Overlay(D.PixelAt(d, px, py),
           if Visited(px - o.x, py - o.y, x, y) then StampColor(colors, w, h, o, px, py) else None)
  }

  lemma StampStep(d: D.PixelDrawer, r: D.PixelDrawer, colors: seq<RGB>, w: int, h: int, o: Point, x: int, y: int)
    requires D.WellFormed(d) && w >= 0 && h >= 0 && |colors| == w * h
    requires 0 <= x < w && 0 <= y < h && StampedUpTo(d, r, colors, w, h, o, x, y)
    ensures 0 <= w * y + x < |colors|
    ensures StampedUpTo(d, D.SetPixel(r, o.x + x, o.y + y, colors[w * y + x]), colors, w, h, o, x, y + 1)
  {
    IndexInRange(w, h, x, y);
    var col := colors[w * y + x];
    var r' := D.SetPixel(r, o.x + x, o.y + y, col);
    forall px, py | InGrid(d.width, d.height, px, py)
      ensures D.PixelAt(r', px, py) == Overlay(D.PixelAt(d, px, py),
                if Visited(px - o.x, py - o.y, x, y + 1) then StampColor(colors, w, h, o, px, py) else None)
    {
      if (px, py) != (o.x + x, o.y + y) {
        D.SetPixelKeepsOthers(r, o.x + x, o.y + y, col, px, py);
        assert Visited(px - o.x, py - o.y, x, y + 1) == Visited(px - o.x, py - o.y, x, y);
      } else {
        StampColorInside(colors, w, h, o, px, py);
      }
    }
  }

  lemma StampNextColumn(d: D.PixelDrawer, r: D.PixelDrawer, colors: seq<RGB>, w: int, h: int, o: Point, x: int)
    requires D.WellFormed(d) && w >= 0 && h >= 0 && |colors| == w * h
    requires StampedUpTo(d, r, colors, w, h, o, x, h)
    ensures StampedUpTo(d, r, colors, w, h, o, x + 1, 0)
  {
  }

  /** The loops of `_template2pixel` after the palette is known: for each
      column x, each row y, `setPixel(originX + x, originY + y,
      pixel[width * y + x])`. Every canvas pixel the block covers with a
      non-transparent colour gets that colour; all others keep theirs. */
  method Stamp(d: D.PixelDrawer, colors: seq<RGB>, w: int, h: int, o: Point) returns (r: D.PixelDrawer)
    requires D.WellFormed(d) && w >= 0 && h >= 0 && |colors| == w * h
    ensures D.WellFormed(r) && r.width == d.width && r.height == d.height
    ensures forall px, py :: InGrid(d.width, d.height, px, py) ==>
              D.PixelAt(r, px, py) == Overlay(D.PixelAt(d, px, py), StampColor(colors, w, h, o, px, py))
  {
    r := d;
    var x := 0;
    while x < w
      invariant 0 <= x <= w
      invariant StampedUpTo(d, r, colors, w, h, o, x, 0)
    {
      var y := 0;
      while y < h
        invariant 0 <= y <= h
        invariant StampedUpTo(d, r, colors, w, h, o, x, y)
      {
        StampStep(d, r, colors, w, h, o, x, y);
        var tempColor := colors[w * y + x];
        r := D.SetPixel(r, o.x + x, o.y + y, tempColor);
        y := y + 1;
      }
      StampNextColumn(d, r, colors, w, h, o, x);
      x := x + 1;
    }
    forall px, py | InGrid(d.width, d.height, px, py)
      ensures D.PixelAt(r, px, py) == Overlay(D.PixelAt(d, px, py), StampColor(colors, w, h, o, px, py))
    {
      if !Visited(px - o.x, py - o.y, w, 0) {
        assert StampColor(colors, w, h, o, px, py).None?;
      }
    }
  }

  /** What stamping a sprite colour writes at (px, py): nothing for a
      transparent colour, else the cube template coloured with the
      colour's palette under the pattern. */
  function CubeColor(cells: seq<Face>, w: int, h: int, pat: Pattern, s: StampSpec, px: int, py: int): Option<RGB>
    requires w >= 0 && h >= 0 && |cells| == w * h && HSLDefined(s.color)
  {
    if s.color.a == 0.0 then None
    else StampColor(Colorize(cells, pat, MakePalette(s.color)), w, h, s.origin, px, py)
  }

  /** The work the renderer keeps between stamps: palette manager, cube
      template (with its colouring table) and canvas buffer. */
  datatype State = State(manager: PM.Manager, template: T.PixelTemplate, canvas: D.PixelDrawer)

  /** Moving the block and the pixel together does not change what the
      stamp writes there. */
  lemma StampColorShift(colors: seq<RGB>, w: int, h: int, o: Point, px: int, py: int, dx: int, dy: int)
    requires w >= 0 && h >= 0 && |colors| == w * h
    ensures StampColor(colors, w, h, Point(o.x + dx, o.y + dy), px + dx, py + dy) == StampColor(colors, w, h, o, px, py)
  {
    var o' := Point(o.x + dx, o.y + dy);
    assert px + dx - o'.x == px - o.x && py + dy - o'.y == py - o.y;
  }

  /** The cube stamped at o with colour c, at a pixel whose stencil cell
      holds face f. */
  lemma CubeColorOfCell(cells: seq<Face>, w: int, h: int, pat: Pattern, o: Point, c: RGB, px: int, py: int, f: Face)
    requires w >= 0 && h >= 0 && |cells| == w * h && HSLDefined(c) && c.a != 0.0
    requires InGrid(w, h, px - o.x, py - o.y)
    requires 0 <= Index(w, px - o.x, py - o.y) < |cells| && cells[Index(w, px - o.x, py - o.y)] == f
    ensures CubeColor(cells, w, h, pat, StampSpec(o, c), px, py) == Visible(FaceColor(MakePalette(c), pat, f))
  {
    CubeColorInside(cells, w, h, pat, StampSpec(o, c), px, py);
  }

  /** On the block, a visible cube writes the face colour of the cell's tag
      unless that colour is fully transparent. */
  lemma CubeColorInside(cells: seq<Face>, w: int, h: int, pat: Pattern, st: StampSpec, px: int, py: int)
    requires w >= 0 && h >= 0 && |cells| == w * h && HSLDefined(st.color) && st.color.a != 0.0
    requires InGrid(w, h, px - st.origin.x, py - st.origin.y)
    ensures 0 <= Index(w, px - st.origin.x, py - st.origin.y) < |cells|
    ensures CubeColor(cells, w, h, pat, st, px, py) == Visible(FaceColor(MakePalette(st.color), pat, cells[Index(w, px - st.origin.x, py - st.origin.y)]))
  {
    var colors := Colorize(cells, pat, MakePalette(st.color));
    StampColorInside(colors, w, h, st.origin, px, py);
    ColorizeAt(cells, pat, MakePalette(st.color), Index(w, px - st.origin.x, py - st.origin.y));
  }

  /** The tables are coherent and the template is a w-by-h grid. */
  ghost predicate Ready(st: State) {
    PM.Coherent(st.manager) && T.CacheCoherent(st.template) && T.WellFormed(st.template) && D.WellFormed(st.canvas)
  }

  /** `_template2pixel(originX, originY, color)`: a colour without a
      palette (alpha 0) is skipped, though asking records it in the
      palette table; otherwise the palette is fetched, the template
      coloured through its memo table, and stamped. */
  method Template2Pixel(st: State, o: Point, color: RGB) returns (r: State)
    requires Ready(st) && HSLDefined(color)
    ensures Ready(r)
    ensures r.manager.pattern == st.manager.pattern
    ensures r.template == st.template.(lut := r.template.lut)
    ensures r.canvas.width == st.canvas.width && r.canvas.height == st.canvas.height
    ensures forall px, py :: InGrid(st.canvas.width, st.canvas.height, px, py) ==>
              D.PixelAt(r.canvas, px, py) == Overlay(D.PixelAt(st.canvas, px, py),
                CubeColor(st.template.cells, st.template.width, st.template.height, st.template.pattern, StampSpec(o, color), px, py))
  {
    var valid := PM.IsColorValid(st.manager, color);
    var pm := valid.manager;
    if !valid.value {
      return State(pm, st.template, st.canvas);
    }
    var pal := PM.GetPalette(pm, color);
    pm := pal.manager;
    var palette := pal.value.value;
    T.MemoIsTransparent(st.template, color);
    var pixel := T.GetColorizedTemplate(st.template, palette);
    var canvas := Stamp(st.canvas, pixel.colors, st.template.width, st.template.height, o);
    r := State(pm, pixel.template, canvas);
  }

  // ----- whole renders -----

  /** One stamp of a render: the cube origin and the sprite colour. */
  datatype StampSpec = StampSpec(origin: Point, color: RGB)

  datatype Mode = HorizontalMode | VerticalMode

  function Origin(mode: Mode, c: Config, xRes: int, p: Point): Point
    requires Consistent(c)
  {
    match mode
    case HorizontalMode => OriginHorizontal(c, xRes, p.x, p.y)
    case VerticalMode => OriginVertical(c, xRes, p.x, p.y)
  }

  /** The stamps of a sequence of sprite pixels, in that order. */
  function StampsOf(mode: Mode, c: Config, sp: Sprite, order: seq<Point>): (r: seq<StampSpec>)
    requires Consistent(c) && ValidSprite(sp)
    ensures |r| == |order|
    ensures forall k :: 0 <= k < |r| ==> HSLDefined(r[k].color)
  {
    seq(|order|, k requires 0 <= k < |order| => StampSpec(Origin(mode, c, sp.width, order[k]), SpriteColor(sp, order[k].x, order[k].y)))
  }

  lemma StampsOfAppend(mode: Mode, c: Config, sp: Sprite, order: seq<Point>, p: Point)
    requires Consistent(c) && ValidSprite(sp)
    ensures StampsOf(mode, c, sp, order + [p])
            == StampsOf(mode, c, sp, order) + [StampSpec(Origin(mode, c, sp.width, p), SpriteColor(sp, p.x, p.y))]
  {
  }

  /** The reference canvas: at each pixel, the colour of the last stamp
      that writes there, or transparent black. */
  ghost function Expected(cells: seq<Face>, w: int, h: int, pat: Pattern, stamps: seq<StampSpec>, px: int, py: int): D.Pixel
    requires w >= 0 && h >= 0 && |cells| == w * h
    requires forall k :: 0 <= k < |stamps| ==> HSLDefined(stamps[k].color)
  {
    if |stamps| == 0 then D.Pixel(0, 0, 0, 0)
    else Overlay(Expected(cells, w, h, pat, stamps[..|stamps| - 1], px, py),
                 CubeColor(cells, w, h, pat, stamps[|stamps| - 1], px, py))
  }

  /** One more stamp lays its cube over the reference canvas so far. */
  lemma ExpectedAppend(cells: seq<Face>, w: int, h: int, pat: Pattern, stamps: seq<StampSpec>, s: StampSpec, px: int, py: int)
    requires w >= 0 && h >= 0 && |cells| == w * h
    requires forall k :: 0 <= k < |stamps| ==> HSLDefined(stamps[k].color)
    requires HSLDefined(s.color)
    ensures Expected(cells, w, h, pat, stamps + [s], px, py) == Overlay(Expected(cells, w, h, pat, stamps, px, py), CubeColor(cells, w, h, pat, s, px, py))
  {
    assert (stamps + [s])[..|stamps|] == stamps;
  }

  /** The canvas is well formed and each of its pixels is the reference
      colour for the stamps of the side-s cube under the pattern. */
  ghost predicate ShowsStamps(canvas: D.PixelDrawer, s: int, pat: Pattern, stamps: seq<StampSpec>)
    requires St.ValidSide(s)
    requires forall k :: 0 <= k < |stamps| ==> HSLDefined(stamps[k].color)
  {
    && D.WellFormed(canvas)
    && forall px, py :: InGrid(canvas.width, canvas.height, px, py) ==>
         D.PixelAt(canvas, px, py) == Expected(St.StencilCells(s), 2 * s - 1, 2 * s, pat, stamps, px, py)
  }

  /** The render invariant: state ready, template the fresh cube under the
      pattern, canvas equal to the reference for the stamps so far. */
  ghost predicate Rendered(st: State, c: Config, pat: Pattern, size: Point, stamps: seq<StampSpec>)
    requires forall k :: 0 <= k < |stamps| ==> HSLDefined(stamps[k].color)
  {
    && St.ValidSide(c.side)
    && Ready(st) && st.manager.pattern == pat
    && st.template.width == 2 * c.side - 1 && st.template.height == 2 * c.side
    && st.template.cells == St.StencilCells(c.side) && st.template.pattern == pat
    && st.canvas.width == size.x && st.canvas.height == size.y
    && ShowsStamps(st.canvas, c.side, pat, stamps)
  }

  /** One more stamp keeps the render invariant. */
  method StampNext(st: State, c: Config, pat: Pattern, size: Point, ghost stamps: seq<StampSpec>, s: StampSpec)
      returns (r: State)
    requires forall k :: 0 <= k < |stamps| ==> HSLDefined(stamps[k].color)
    requires HSLDefined(s.color) && Rendered(st, c, pat, size, stamps)
    ensures Rendered(r, c, pat, size, stamps + [s])
  {
    r := Template2Pixel(st, s.origin, s.color);
    forall px, py | InGrid(r.canvas.width, r.canvas.height, px, py)
      ensures D.PixelAt(r.canvas, px, py) == Expected(St.StencilCells(c.side), 2 * c.side - 1, 2 * c.side, pat, stamps + [s], px, py)
    {
      ExpectedAppend(St.StencilCells(c.side), 2 * c.side - 1, 2 * c.side, pat, stamps, s, px, py);
    }
  }

  /** The start of a render: a fresh canvas, a fresh cube template under
      the manager's pattern. */
  method StartRender(c: Config, pm: PM.Manager, size: Point) returns (st: State)
    requires St.ValidSide(c.side) && PM.Coherent(pm) && size.x >= 0 && size.y >= 0
    ensures Rendered(st, c, pm.pattern, size, [])
  {
    var canvas := D.NewDrawer(size.x, size.y);
    var t := St.CreateTemplate(c.side);
    t := T.SetPaletteLookUpPattern(t, pm.pattern);
    st := State(pm, t, canvas);
    forall px, py | InGrid(size.x, size.y, px, py)
      ensures D.PixelAt(canvas, px, py) == D.Pixel(0, 0, 0, 0)
    {
      D.OffsetInRange(canvas, px, py);
    }
  }

  /** One iteration of either render's inner loop: the cube of sprite
      pixel (x, y) stamped at its mode's origin. */
  method StampCell(st: State, c: Config, pat: Pattern, size: Point, sp: Sprite, mode: Mode, ghost order: seq<Point>, x: int, y: int)
      returns (r: State)
    requires Consistent(c) && ValidSprite(sp)
    requires Rendered(st, c, pat, size, StampsOf(mode, c, sp, order))
    ensures Rendered(r, c, pat, size, StampsOf(mode, c, sp, order + [Point(x, y)]))
  {
    var color := SpriteColor(sp, x, y);
    var origin := Origin(mode, c, sp.width, Point(x, y));
    StampsOfAppend(mode, c, sp, order, Point(x, y));
    r := StampNext(st, c, pat, size, StampsOf(mode, c, sp, order), StampSpec(origin, color));
  }

  /** Either render's inner loop from column x down to column 0 of row y,
      each pixel stamped at its mode's origin; the loop is written as
      recursion on x. */
  method StampRow(st: State, c: Config, pat: Pattern, size: Point, sp: Sprite, mode: Mode, ghost done: seq<Point>, x: int, y: int)
      returns (r: State)
    requires Consistent(c) && ValidSprite(sp) && x >= -1
    requires Rendered(st, c, pat, size, StampsOf(mode, c, sp, done))
    ensures Rendered(r, c, pat, size, StampsOf(mode, c, sp, done + RowRightToLeft(x + 1, y)))
    decreases x + 1
  {
    if x < 0 {
      assert done + RowRightToLeft(x + 1, y) == done;
      r := st;
    } else {
      var r1 := StampCell(st, c, pat, size, sp, mode, done, x, y);
      r := StampRow(r1, c, pat, size, sp, mode, done + [Point(x, y)], x - 1, y);
      RowStartsAtRight(x + 1, y);
      assert done + [Point(x, y)] + RowRightToLeft(x, y) == done + RowRightToLeft(x + 1, y);
    }
  }

  /** `renderHorizontal`: the canvas of the horizontal size, with every
      sprite pixel's cube stamped in row order, right to left; the result
      is the reference canvas for those stamps. The palette manager keeps
      its pattern and coherence. */
  method RenderHorizontal(c: Config, sp: Sprite, pm: PM.Manager) returns (canvas: D.PixelDrawer, pm': PM.Manager)
    requires Consistent(c) && St.ValidSide(c.side) && c.gap >= 0
    requires ValidSprite(sp) && sp.width >= 1 && sp.height >= 1 && PM.Coherent(pm)
    ensures PM.Coherent(pm') && pm'.pattern == pm.pattern
    ensures canvas.width == CanvasHorizontal(c, sp.width, sp.height).x
    ensures canvas.height == CanvasHorizontal(c, sp.width, sp.height).y
    ensures ShowsStamps(canvas, c.side, pm.pattern, StampsOf(HorizontalMode, c, sp, OrderHorizontal(sp.width, sp.height)))
  {
    var xRes, yRes := sp.width, sp.height;
    var size := CanvasHorizontal(c, xRes, yRes);
    CanvasIsPositive(c, xRes, yRes);
    var st := StartRender(c, pm, size);
    ghost var order: seq<Point> := [];
    var y := 0;
    while y < yRes
      invariant 0 <= y <= yRes
      invariant order == OrderHorizontal(xRes, y)
      invariant Rendered(st, c, pm.pattern, size, StampsOf(HorizontalMode, c, sp, order))
    {
      st := StampRow(st, c, pm.pattern, size, sp, HorizontalMode, order, xRes - 1, y);
      order := order + RowRightToLeft(xRes, y);
      assert order == OrderHorizontal(xRes, y + 1);
      y := y + 1;
    }
    canvas, pm' := st.canvas, st.manager;
  }

  /** `renderVertical`: the canvas of the vertical size, with the rows
      stamped bottom to top, each right to left. */
  method RenderVertical(c: Config, sp: Sprite, pm: PM.Manager) returns (canvas: D.PixelDrawer, pm': PM.Manager)
    requires Consistent(c) && St.ValidSide(c.side) && c.gap >= 0
    requires ValidSprite(sp) && sp.width >= 1 && sp.height >= 1 && PM.Coherent(pm)
    ensures PM.Coherent(pm') && pm'.pattern == pm.pattern
    ensures canvas.width == CanvasVertical(c, sp.width, sp.height).x
    ensures canvas.height == CanvasVertical(c, sp.width, sp.height).y
    ensures ShowsStamps(canvas, c.side, pm.pattern, StampsOf(VerticalMode, c, sp, OrderVertical(sp.width, sp.height)))
  {
    var xRes, yRes := sp.width, sp.height;
    var size := CanvasVertical(c, xRes, yRes);
    CanvasIsPositive(c, xRes, yRes);
    var st := StartRender(c, pm, size);
    ghost var order: seq<Point> := [];
    var y := yRes - 1;
    while y >= 0
      invariant -1 <= y <= yRes - 1
      invariant order == OrderVerticalFrom(xRes, yRes, y + 1)
      invariant Rendered(st, c, pm.pattern, size, StampsOf(VerticalMode, c, sp, order))
    {
      st := StampRow(st, c, pm.pattern, size, sp, VerticalMode, order, xRes - 1, y);
      order := order + RowRightToLeft(xRes, y);
      assert order == OrderVerticalFrom(xRes, yRes, y);
      y := y - 1;
    }
    canvas, pm' := st.canvas, st.manager;
  }

  /** Both canvases have a positive size. */
  lemma CanvasIsPositive(c: Config, xRes: int, yRes: int)
    requires Consistent(c) && c.side >= 2 && c.gap >= 0 && xRes >= 1 && yRes >= 1
    ensures CanvasHorizontal(c, xRes, yRes).x > 0 && CanvasHorizontal(c, xRes, yRes).y > 0
    ensures CanvasVertical(c, xRes, yRes).x > 0 && CanvasVertical(c, xRes, yRes).y > 0
  {
    StampsFitHorizontal(c, xRes, yRes, 0, 0, 0, 0);
    StampsFitVertical(c, xRes, yRes, 0, 0, 0, 0);
  }
}
