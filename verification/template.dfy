/** `src/pixelTemplate.js`: a width-by-height grid of face tags stored row
    by row, a drawing cursor, the tag strokes write, the look-up pattern and
    the colourised-template memo table. */
module Template {
  import opened Color
  import opened Pix
  import opened Palettes
  import opened Geometry

  datatype PixelTemplate = PixelTemplate(
    width: int,
    height: int,
    cells: seq<Face>,
    cursor: Point,
    value: Face,
    pattern: Pattern,
    lut: map<ColorKey, seq<RGB>>)

  /** The cell array holds exactly width * height tags. */
  predicate WellFormed(t: PixelTemplate) {
    t.width >= 0 && t.height >= 0 && |t.cells| == t.width * t.height
  }

  /** The tag at (x, y), read at row-major index width * y + x. */
  function Cell(t: PixelTemplate, x: int, y: int): Face {
    var i := Index(t.width, x, y);
    if 0 <= i < |t.cells| then t.cells[i] else Transparent
  }

  /** The constructor: width * height transparent cells (none when that
      product is not positive), cursor at the origin, transparent pen,
      top-left sun pattern and an empty memo table. */
  function NewTemplate(w: int, h: int): (t: PixelTemplate)
    ensures t.width == w && t.height == h
    ensures |t.cells| == if w * h > 0 then w * h else 0
    ensures forall i :: 0 <= i < |t.cells| ==> t.cells[i] == Transparent
    ensures t.cursor == Point(0, 0) && t.value == Transparent
    ensures t.pattern == PatternOf(SunTopLeft) && t.lut == map[]
    ensures w >= 0 && h >= 0 ==> WellFormed(t)
  {
    var n := if w * h > 0 then w * h else 0;
    PixelTemplate(w, h, seq(n, _ => Transparent), Point(0, 0), Transparent, DefaultPattern, map[])
  }

  /** `moveTo`: only the cursor changes. */
  function MoveTo(t: PixelTemplate, x: int, y: int): (r: PixelTemplate)
    ensures r.cursor == Point(x, y) && r == t.(cursor := r.cursor)
  {
    t.(cursor := Point(x, y))
  }

  /** `moveRelativeTo`: the cursor moves by (dx, dy); nothing else changes. */
  function MoveRelativeTo(t: PixelTemplate, dx: int, dy: int): (r: PixelTemplate)
    ensures r.cursor.x - t.cursor.x == dx && r.cursor.y - t.cursor.y == dy
    ensures r == t.(cursor := r.cursor)
  {
    t.(cursor := Point(t.cursor.x + dx, t.cursor.y + dy))
  }

  /** `setValue`: the tag later strokes write. */
  function SetValue(t: PixelTemplate, v: Face): (r: PixelTemplate)
    ensures r.value == v && r == t.(value := v)
  {
    t.(value := v)
  }

  /** `setPixel`: the cell at index width * y + x becomes v and no other
      cell changes. The source does not check bounds; the model asks the
      caller for a cell inside the grid. */
  function SetPixel(t: PixelTemplate, x: int, y: int, v: Face): (r: PixelTemplate)
    requires WellFormed(t) && InGrid(t.width, t.height, x, y)
    ensures r == t.(cells := r.cells) && WellFormed(r)
    ensures 0 <= Index(t.width, x, y) < |r.cells| && r.cells[Index(t.width, x, y)] == v
    ensures forall i :: 0 <= i < |t.cells| && i != Index(t.width, x, y) ==> r.cells[i] == t.cells[i]
  {
    IndexInRange(t.width, t.height, x, y);
    t.(cells := t.cells[Index(t.width, x, y) := v])
  }

  /** Seen through (x, y) coordinates, `setPixel` changes the one cell it
      names and no other cell of the grid. */
  lemma SetPixelChangesOneCell(t: PixelTemplate, x: int, y: int, v: Face, x': int, y': int)
    requires WellFormed(t) && InGrid(t.width, t.height, x, y) && InGrid(t.width, t.height, x', y')
    ensures Cell(SetPixel(t, x, y, v), x', y') == if x' == x && y' == y then v else Cell(t, x', y')
  {
    IndexInRange(t.width, t.height, x, y);
    IndexInRange(t.width, t.height, x', y');
    IndexInjective(t.width, x, y, x', y');
  }

  /** Two `setPixel` calls on neighbouring cells of one row, as each step of
      a slanted line makes. */
  function SetPair(t: PixelTemplate, x: int, y: int, v: Face): (r: PixelTemplate)
    requires WellFormed(t) && InGrid(t.width, t.height, x, y) && InGrid(t.width, t.height, x + 1, y)
    ensures r == t.(cells := r.cells) && WellFormed(r)
  {
    SetPixel(SetPixel(t, x, y, v), x + 1, y, v)
  }

  lemma SetPairChangesTwoCells(t: PixelTemplate, x: int, y: int, v: Face)
    requires WellFormed(t) && InGrid(t.width, t.height, x, y) && InGrid(t.width, t.height, x + 1, y)
    ensures forall x', y' :: InGrid(t.width, t.height, x', y') ==>
      Cell(SetPair(t, x, y, v), x', y') == if y' == y && (x' == x || x' == x + 1) then v else Cell(t, x', y')
  {
    forall x', y' | InGrid(t.width, t.height, x', y')
      ensures Cell(SetPair(t, x, y, v), x', y') == if y' == y && (x' == x || x' == x + 1) then v else Cell(t, x', y')
    {
      SetPixelChangesOneCell(t, x, y, v, x', y');
      SetPixelChangesOneCell(SetPixel(t, x, y, v), x + 1, y, v, x', y');
    }
  }

  lemma SetPixelChangesOneCellAll(t: PixelTemplate, x: int, y: int, v: Face)
    requires WellFormed(t) && InGrid(t.width, t.height, x, y)
    ensures forall x', y' :: InGrid(t.width, t.height, x', y') ==>
      Cell(SetPixel(t, x, y, v), x', y') == if x' == x && y' == y then v else Cell(t, x', y')
  {
    forall x', y' | InGrid(t.width, t.height, x', y')
      ensures Cell(SetPixel(t, x, y, v), x', y') == if x' == x && y' == y then v else Cell(t, x', y')
    {
      SetPixelChangesOneCell(t, x, y, v, x', y');
    }
  }

  /** r is t with the cells the stroke covers set to v, every other cell as
      before, and nothing but cells and cursor changed. */
  ghost predicate PaintedBy(t: PixelTemplate, r: PixelTemplate, st: Stroke, v: Face) {
    && WellFormed(r)
    && r == t.(cells := r.cells, cursor := r.cursor)
    && forall x, y :: InGrid(t.width, t.height, x, y) ==>
         Cell(r, x, y) == if Covers(st, x, y) then v else Cell(t, x, y)
  }

  /** One step of a slanted line: painting the pair at the cursor and
      moving two columns right and one row on turns the first k steps of
      the stroke into the first k + 1. */
  lemma SlantPairStep(t: PixelTemplate, r: PixelTemplate, line: Line, k: nat)
    requires line == SlantDown || line == SlantUp
    requires PaintedBy(t, r, Stroke(line, t.cursor, 2 * k), t.value)
    requires r.cursor == Point(t.cursor.x + 2 * k, if line == SlantDown then t.cursor.y + k else t.cursor.y - k)
    requires InGrid(r.width, r.height, r.cursor.x, r.cursor.y) && InGrid(r.width, r.height, r.cursor.x + 1, r.cursor.y)
    ensures PaintedBy(t, SetPair(r, r.cursor.x, r.cursor.y, r.value).(cursor := Point(r.cursor.x + 2, if line == SlantDown then r.cursor.y + 1 else r.cursor.y - 1)),
                      Stroke(line, t.cursor, 2 * (k + 1)), t.value)
  {
    SetPairChangesTwoCells(r, r.cursor.x, r.cursor.y, t.value);
    forall x, y | InGrid(t.width, t.height, x, y)
      ensures Cell(SetPair(r, r.cursor.x, r.cursor.y, t.value), x, y)
              == if Covers(Stroke(line, t.cursor, 2 * (k + 1)), x, y) then t.value else Cell(t, x, y)
    {
      SlantGrows(line, t.cursor, k, x, y);
    }
  }

  /** When the loop stops after Steps(distance) steps, the first k steps are
      the whole stroke. */
  lemma SlantDone(t: PixelTemplate, r: PixelTemplate, line: Line, distance: int, k: nat)
    requires line == SlantDown || line == SlantUp
    requires PaintedBy(t, r, Stroke(line, t.cursor, 2 * k), t.value) && k == Steps(distance)
    ensures PaintedBy(t, r, Stroke(line, t.cursor, distance), t.value)
  {
    assert Steps(2 * k) == k;
  }

  /** `drawSlantedLineDown`: per step the cursor cell and its right
      neighbour, then two columns right and one row down, while the cursor
      is left of start + distance. */
  method DrawSlantedLineDown(t: PixelTemplate, distance: int) returns (r: PixelTemplate)
    requires WellFormed(t) && Fits(Stroke(SlantDown, t.cursor, distance), t.width, t.height)
    ensures PaintedBy(t, r, Stroke(SlantDown, t.cursor, distance), t.value)
    ensures r.cursor == End(Stroke(SlantDown, t.cursor, distance))
  {
    var start := t.cursor.x;
    r := t;
    ghost var k: nat := 0;
    while r.cursor.x < start + distance
      invariant k <= Steps(distance)
      invariant r.cursor == Point(start + 2 * k, t.cursor.y + k)
      invariant PaintedBy(t, r, Stroke(SlantDown, t.cursor, 2 * k), t.value)
      decreases start + distance - r.cursor.x
    {
      StepsIsLoopCount(distance, k);
      SlantPairStep(t, r, SlantDown, k);
      r := SetPair(r, r.cursor.x, r.cursor.y, r.value).(cursor := Point(r.cursor.x + 2, r.cursor.y + 1));
      k := k + 1;
    }
    StepsIsLoopCount(distance, k);
    SlantDone(t, r, SlantDown, distance, k);
  }

  /** `drawSlantedLineUp`: as the downward line, but one row up per step. */
  method DrawSlantedLineUp(t: PixelTemplate, distance: int) returns (r: PixelTemplate)
    requires WellFormed(t) && Fits(Stroke(SlantUp, t.cursor, distance), t.width, t.height)
    ensures PaintedBy(t, r, Stroke(SlantUp, t.cursor, distance), t.value)
    ensures r.cursor == End(Stroke(SlantUp, t.cursor, distance))
  {
    var start := t.cursor.x;
    r := t;
    ghost var k: nat := 0;
    while r.cursor.x < start + distance
      invariant k <= Steps(distance)
      invariant r.cursor == Point(start + 2 * k, t.cursor.y - k)
      invariant PaintedBy(t, r, Stroke(SlantUp, t.cursor, 2 * k), t.value)
      decreases start + distance - r.cursor.x
    {
      StepsIsLoopCount(distance, k);
      SlantPairStep(t, r, SlantUp, k);
      r := SetPair(r, r.cursor.x, r.cursor.y, r.value).(cursor := Point(r.cursor.x + 2, r.cursor.y - 1));
      k := k + 1;
    }
    StepsIsLoopCount(distance, k);
    SlantDone(t, r, SlantUp, distance, k);
  }

  /** `drawVerticalLine`: distance cells down one column. */
  method DrawVerticalLine(t: PixelTemplate, distance: int) returns (r: PixelTemplate)
    requires WellFormed(t) && Fits(Stroke(Vertical, t.cursor, distance), t.width, t.height)
    ensures PaintedBy(t, r, Stroke(Vertical, t.cursor, distance), t.value)
    ensures r.cursor == End(Stroke(Vertical, t.cursor, distance))
  {
    var start := t.cursor.y;
    r := t;
    while r.cursor.y < start + distance
      invariant start <= r.cursor.y && (r.cursor.y <= start + distance || r.cursor.y == start)
      invariant r.cursor.x == t.cursor.x
      invariant PaintedBy(t, r, Stroke(Vertical, t.cursor, r.cursor.y - start), t.value)
      decreases start + distance - r.cursor.y
    {
      SetPixelChangesOneCellAll(r, r.cursor.x, r.cursor.y, r.value);
      r := SetPixel(r, r.cursor.x, r.cursor.y, r.value);
      r := r.(cursor := Point(r.cursor.x, r.cursor.y + 1));
    }
  }

  /** `drawHorizontalLine`: distance cells along one row. */
  method DrawHorizontalLine(t: PixelTemplate, distance: int) returns (r: PixelTemplate)
    requires WellFormed(t) && Fits(Stroke(Horizontal, t.cursor, distance), t.width, t.height)
    ensures PaintedBy(t, r, Stroke(Horizontal, t.cursor, distance), t.value)
    ensures r.cursor == End(Stroke(Horizontal, t.cursor, distance))
  {
    var start := t.cursor.x;
    r := t;
    while r.cursor.x < start + distance
      invariant start <= r.cursor.x && (r.cursor.x <= start + distance || r.cursor.x == start)
      invariant r.cursor.y == t.cursor.y
      invariant PaintedBy(t, r, Stroke(Horizontal, t.cursor, r.cursor.x - start), t.value)
      decreases start + distance - r.cursor.x
    {
      SetPixelChangesOneCellAll(r, r.cursor.x, r.cursor.y, r.value);
      r := SetPixel(r, r.cursor.x, r.cursor.y, r.value);
      r := r.(cursor := Point(r.cursor.x + 1, r.cursor.y));
    }
  }

  /** `setPaletteLookUpPattern`: replaces the pattern, keeps the memo table. */
  function SetPaletteLookUpPattern(t: PixelTemplate, pat: Pattern): (r: PixelTemplate)
    ensures r.pattern == pat && r == t.(pattern := pat)
  {
    t.(pattern := pat)
  }

  datatype Colorized = Colorized(template: PixelTemplate, colors: seq<RGB>)

  /** `getColorizedTemplate`: memoised by the palette's base colour only. A
      base colour seen before returns the stored array, whatever the
      pattern or cells are now; a new one is coloured with the current
      pattern and stored. */
  function GetColorizedTemplate(t: PixelTemplate, p: Palette): (r: Colorized)
    ensures Key(p.normalSide) in t.lut ==> r.colors == t.lut[Key(p.normalSide)] && r.template == t
    ensures Key(p.normalSide) !in t.lut ==>
      && r.colors == Colorize(t.cells, t.pattern, p)
      && r.template == t.(lut := t.lut[Key(p.normalSide) := r.colors])
  {
    var k := Key(p.normalSide);
    if k in t.lut then Colorized(t, t.lut[k])
    else
      var colors := Colorize(t.cells, t.pattern, p);
      Colorized(t.(lut := t.lut[k := colors]), colors)
  }

  /** Every stored colouring is the current cells coloured with the current
      pattern and the palette of the stored key. */
  ghost predicate CacheCoherent(t: PixelTemplate) {
    forall k :: k in t.lut ==>
      HSLDefined(ColorOfKey(k)) && t.lut[k] == Colorize(t.cells, t.pattern, MakePalette(ColorOfKey(k)))
  }

  /** While cells and pattern stay fixed, the memo table is transparent: a
      palette built from a colour gets the colouring it would get afresh,
      and the table stays coherent. */
  lemma MemoIsTransparent(t: PixelTemplate, c: RGB)
    requires CacheCoherent(t) && HSLDefined(c)
    ensures GetColorizedTemplate(t, MakePalette(c)).colors == Colorize(t.cells, t.pattern, MakePalette(c))
    ensures CacheCoherent(GetColorizedTemplate(t, MakePalette(c)).template)
  {
    KeyIsInjective(c, c);
  }

  /** The memo table is not invalidated by a pattern change: after
      colouring a colour under one pattern and switching to another, the
      same base colour still returns the first colouring. */
  lemma PatternChangeKeepsStaleColoring(t: PixelTemplate, p: Palette, q: Palette, pat: Pattern)
    requires q.normalSide == p.normalSide
    ensures var first := GetColorizedTemplate(t, p);
      GetColorizedTemplate(SetPaletteLookUpPattern(first.template, pat), q).colors == first.colors
  {
  }
}
