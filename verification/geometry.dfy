/** The cursor geometry shared by the stencil and by the older drawer: the
    four line primitives, which cells each one covers and where it leaves
    the cursor, and the row-major cell index of a grid. */
module Geometry {

  datatype Point = Point(x: int, y: int)

  /** The four primitives: two slanted lines (two cells wide, one row per
      step), a vertical and a horizontal line. */
  datatype Line = SlantDown | SlantUp | Vertical | Horizontal

  /** One call of a primitive: the line kind, the cursor it starts from and
      the distance argument. */
  datatype Stroke = Stroke(line: Line, start: Point, length: int)

  /** How many times a slanted line's loop runs: it advances x by 2 while
      x < start + distance, so ceil(distance / 2) times, or never. */
  function Steps(d: int): (n: nat)
    ensures d <= 0 ==> n == 0
    ensures d > 0 ==> 2 * n - 1 <= d <= 2 * n
  {
    if d <= 0 then 0 else (d + 1) / 2
  }

  /** A slanted loop that has run k times continues exactly when k < Steps(d). */
  lemma StepsIsLoopCount(d: int, k: nat)
    ensures 2 * k < d <==> k < Steps(d)
  {
  }

  /** Whether the stroke writes the cell (x, y). */
  predicate Covers(st: Stroke, x: int, y: int) {
    var sx, sy := st.start.x, st.start.y;
    match st.line
    case SlantDown =>
      var k := y - sy;
      0 <= k < Steps(st.length) && (x == sx + 2 * k || x == sx + 2 * k + 1)
    case SlantUp =>
      var k := sy - y;
      0 <= k < Steps(st.length) && (x == sx + 2 * k || x == sx + 2 * k + 1)
    case Vertical =>
      x == sx && sy <= y < sy + st.length
    case Horizontal =>
      y == sy && sx <= x < sx + st.length
  }

  /** A slanted stroke of length 2(k + 1) covers what the one of length 2k
      covers and the pair of cells of its step k. */
  lemma SlantGrows(line: Line, start: Point, k: nat, x: int, y: int)
    requires line == SlantDown || line == SlantUp
    ensures Covers(Stroke(line, start, 2 * (k + 1)), x, y)
            == (Covers(Stroke(line, start, 2 * k), x, y)
                || (y == (if line == SlantDown then start.y + k else start.y - k) && (x == start.x + 2 * k || x == start.x + 2 * k + 1)))
  {
    assert Steps(2 * k) == k && Steps(2 * (k + 1)) == k + 1;
  }

  /** Where the cursor is after the stroke. */
  function End(st: Stroke): Point {
    var sx, sy := st.start.x, st.start.y;
    var n := Steps(st.length);
    var len := if st.length > 0 then st.length else 0;
    match st.line
    case SlantDown => Point(sx + 2 * n, sy + n)
    case SlantUp => Point(sx + 2 * n, sy - n)
    case Vertical => Point(sx, sy + len)
    case Horizontal => Point(sx + len, sy)
  }

  /** The stroke moved by (dx, dy). */
  function Translate(st: Stroke, dx: int, dy: int): Stroke {
    st.(start := Point(st.start.x + dx, st.start.y + dy))
  }

  /** The cell is inside a grid of the given size. */
  predicate InGrid(w: int, h: int, x: int, y: int) {
    0 <= x < w && 0 <= y < h
  }

  /** Every cell the stroke covers lies in a w-by-h grid, in closed form. */
  predicate Fits(st: Stroke, w: int, h: int) {
    var sx, sy := st.start.x, st.start.y;
    var n := Steps(st.length);
    match st.line
    case SlantDown => n == 0 || (0 <= sx && sx + 2 * n <= w && 0 <= sy && sy + n <= h)
    case SlantUp => n == 0 || (0 <= sx && sx + 2 * n <= w && sy < h && 0 <= sy - n + 1)
    case Vertical => st.length <= 0 || (0 <= sx < w && 0 <= sy && sy + st.length <= h)
    case Horizontal => st.length <= 0 || (0 <= sy < h && 0 <= sx && sx + st.length <= w)
  }

  /** `Fits` means what it says: a fitting stroke covers only grid cells. */
  lemma FitsMeansInside(st: Stroke, w: int, h: int, x: int, y: int)
    requires Fits(st, w, h) && Covers(st, x, y)
    ensures InGrid(w, h, x, y)
  {
  }

  /** A translated stroke covers the translated cells and ends at the
      translated end point. */
  lemma TranslateCovers(st: Stroke, dx: int, dy: int, x: int, y: int)
    ensures Covers(Translate(st, dx, dy), x + dx, y + dy) == Covers(st, x, y)
    ensures End(Translate(st, dx, dy)) == Point(End(st).x + dx, End(st).y + dy)
  {
  }

  // ----- row-major indexing -----

  /** The position of cell (x, y) in a row-major array of width w. */
  function Index(w: int, x: int, y: int): int {
    w * y + x
  }

  lemma MulMonotone(w: int, a: int, b: int)
    requires 0 <= w && a <= b
    ensures w * a <= w * b
  {
    assert w * b - w * a == w * (b - a);
  }

  /** A cell inside the grid has an index inside the array. */
  lemma IndexInRange(w: int, h: int, x: int, y: int)
    requires InGrid(w, h, x, y)
    ensures 0 <= Index(w, x, y) < w * h
  {
    MulMonotone(w, 0, y);
    MulMonotone(w, y + 1, h);
  }

  /** Two columns of the same grid with equal indices are the same cell. */
  lemma IndexInjective(w: int, x1: int, y1: int, x2: int, y2: int)
    requires 0 <= x1 < w && 0 <= x2 < w
    ensures Index(w, x1, y1) == Index(w, x2, y2) ==> x1 == x2 && y1 == y2
  {
    if y1 < y2 {
      MulMonotone(w, y1 + 1, y2);
    } else if y2 < y1 {
      MulMonotone(w, y2 + 1, y1);
    }
  }

  /** Cell (x, y) of a row-major grid of width w is read back from its
      index. */
  lemma RowMajorDecode(w: int, x: int, y: int)
    requires 0 <= x < w && 0 <= y
    ensures Index(w, x, y) % w == x && Index(w, x, y) / w == y
  {
    var i := Index(w, x, y);
    var q, m := i / w, i % w;
    assert w * q + m == w * y + x;
    if q < y {
      MulMonotone(w, q + 1, y);
    } else if q > y {
      MulMonotone(w, y + 1, q);
    }
  }

  /** Every index of a row-major grid of width w comes from the cell
      (i % w, i / w). */
  lemma RowMajorSplit(w: int, i: int)
    requires w > 0 && i >= 0
    ensures 0 <= i % w < w && 0 <= i / w && Index(w, i % w, i / w) == i
  {
  }

  /** Index injectivity for all cells of the grid at once. */
  lemma IndexSeparates(w: int, h: int, x: int, y: int)
    requires InGrid(w, h, x, y)
    ensures forall x', y' :: InGrid(w, h, x', y') && Index(w, x', y') == Index(w, x, y) ==> x' == x && y' == y
  {
    forall x', y' | InGrid(w, h, x', y') && Index(w, x', y') == Index(w, x, y)
      ensures x' == x && y' == y
    {
      IndexInjective(w, x', y', x, y);
    }
  }
}
