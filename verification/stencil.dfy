/** The cube stencil of `Pixify._createTemplate` (src/pixify.js): a
    (2s - 1)-by-2s grid of face tags drawn face by face with the four line
    primitives, later strokes overwriting earlier ones. The stroke list
    below is the drawing written out in closed form; `CreateTemplate` runs
    the source's cursor moves and is proved to paint exactly that list. */
module Stencil {
  import opened Pix
  import opened Geometry
  import opened Template

  /** A stroke together with the tag it writes. */
  datatype FaceStroke = FaceStroke(stroke: Stroke, face: Face)

  /** The tag a list of strokes leaves at (x, y): that of the last stroke
      covering the cell, or transparent when none does. */
  function Painted(strokes: seq<FaceStroke>, x: int, y: int): Face {
    if |strokes| == 0 then Transparent
    else if Covers(strokes[|strokes| - 1].stroke, x, y) then strokes[|strokes| - 1].face
    else Painted(strokes[..|strokes| - 1], x, y)
  }

  /** The cube geometry for an even side s: width 2s - 1, height 2s, and
      the left stroke rows starting at s/2 + 1. */
  predicate ValidSide(s: int) {
    s >= 2 && s % 2 == 0
  }

  function Half(s: int): int { s / 2 }

  // ----- the strokes of each face, in drawing order -----

  /** Left face: s - 1 downward strokes of length s from (0, s/2 + i). */
  function LeftStrokes(s: int): seq<FaceStroke>
    requires ValidSide(s)
  {
    seq(s - 1, j => FaceStroke(Stroke(SlantDown, Point(0, Half(s) + j + 1), s), Left))
  }

  /** Right face: s - 1 upward strokes of length s from (s - 1, s - 1 + i). */
  function RightStrokes(s: int): seq<FaceStroke>
    requires ValidSide(s)
  {
    seq(s - 1, j => FaceStroke(Stroke(SlantUp, Point(s - 1, s + j), s), Right))
  }

  /** Top face: for i = 1 .. s - 2 an upward and a downward stroke of
      length s - i - 1 from (2i, s/2), narrowing towards the apex. */
  function TopStrokes(s: int): seq<FaceStroke>
    requires ValidSide(s)
  {
    seq(2 * (s - 2), j =>
      var i := j / 2 + 1;
      FaceStroke(Stroke(if j % 2 == 0 then SlantUp else SlantDown, Point(2 * i, Half(s)), s - i - 1), Top))
  }

  /** Outline: the bottom ridge (down, then up one column left and one row
      up from where it ended), the two side verticals, and the top ridge. */
  function OutlineStrokes(s: int): seq<FaceStroke>
    requires ValidSide(s)
  {
    var o := Half(s);
    [ FaceStroke(Stroke(SlantDown, Point(0, s + o), s), Outline),
      FaceStroke(Stroke(SlantUp, Point(s - 1, 2 * s - 1), s), Outline),
      FaceStroke(Stroke(Vertical, Point(0, o), s), Outline),
      FaceStroke(Stroke(Vertical, Point(2 * s - 2, o), s), Outline),
      FaceStroke(Stroke(SlantUp, Point(0, o), s), Outline),
      FaceStroke(Stroke(SlantDown, Point(s - 1, 1), s), Outline) ]
  }

  /** Highlight: an inset top-left ridge and the front vertical edge. */
  function HighlightStrokes(s: int): seq<FaceStroke>
    requires ValidSide(s)
  {
    var o := Half(s);
    [ FaceStroke(Stroke(SlantDown, Point(2, o + 1), s - 2), Highlight),
      FaceStroke(Stroke(SlantUp, Point(s - 1, s - 1), s - 2), Highlight),
      FaceStroke(Stroke(Vertical, Point(s - 1, s - 1), s), Highlight) ]
  }

  /** Corner highlight: a 3-cell vertical and a 3-cell horizontal mark at
      the front top corner. */
  function CornerStrokes(s: int): seq<FaceStroke>
    requires ValidSide(s)
  {
    [ FaceStroke(Stroke(Vertical, Point(s - 1, s - 1), 3), CornerHighlight),
      FaceStroke(Stroke(Horizontal, Point(s - 2, s - 1), 3), CornerHighlight) ]
  }

  /** The whole drawing in order. */
  function StencilStrokes(s: int): seq<FaceStroke>
    requires ValidSide(s)
  {
    LeftStrokes(s) + RightStrokes(s) + TopStrokes(s) + OutlineStrokes(s) + HighlightStrokes(s) + CornerStrokes(s)
  }

  // ----- the template shows a stroke list -----

  /** The template has the cube's dimensions and a fresh pattern and memo
      table. */
  predicate Frame(t: PixelTemplate, s: int) {
    t.width == 2 * s - 1 && t.height == 2 * s && t.pattern == DefaultPattern && t.lut == map[]
  }

  /** Every cell of a w-by-h row-major grid holds the tag the stroke list
      leaves there. */
  ghost predicate ShowsGrid(w: int, h: int, cells: seq<Face>, strokes: seq<FaceStroke>) {
    && w >= 0 && h >= 0 && |cells| == w * h
    && forall x, y :: InGrid(w, h, x, y) ==>
         (var i := Index(w, x, y); if 0 <= i < |cells| then cells[i] else Transparent) == Painted(strokes, x, y)
  }

  /** The template's cells show the stroke list; cursor, pen, pattern and
      memo table play no part. */
  ghost predicate Shows(t: PixelTemplate, strokes: seq<FaceStroke>) {
    ShowsGrid(t.width, t.height, t.cells, strokes)
  }

  /** Painting one more stroke extends the list the template shows. */
  lemma PaintStep(t: PixelTemplate, r: PixelTemplate, st: Stroke, strokes: seq<FaceStroke>)
    requires Shows(t, strokes) && PaintedBy(t, r, st, t.value)
    ensures Shows(r, strokes + [FaceStroke(st, t.value)])
  {
    var next := strokes + [FaceStroke(st, t.value)];
    assert next[..|next| - 1] == strokes;
    forall x, y | InGrid(r.width, r.height, x, y)
      ensures Cell(r, x, y) == Painted(next, x, y)
    {
    }
  }

  /** One primitive call, dispatched on the line kind. */
  method Draw(t: PixelTemplate, line: Line, distance: int) returns (r: PixelTemplate)
    requires WellFormed(t) && Fits(Stroke(line, t.cursor, distance), t.width, t.height)
    ensures PaintedBy(t, r, Stroke(line, t.cursor, distance), t.value)
    ensures r.cursor == End(Stroke(line, t.cursor, distance))
  {
    match line
    case SlantDown => r := DrawSlantedLineDown(t, distance);
    case SlantUp => r := DrawSlantedLineUp(t, distance);
    case Vertical => r := DrawVerticalLine(t, distance);
    case Horizontal => r := DrawHorizontalLine(t, distance);
  }

  /** Draws one listed stroke from the current cursor and records it. */
  method DrawListed(t: PixelTemplate, line: Line, distance: int, ghost strokes: seq<FaceStroke>)
      returns (r: PixelTemplate, ghost after: seq<FaceStroke>)
    requires Shows(t, strokes) && Fits(Stroke(line, t.cursor, distance), t.width, t.height)
    ensures after == strokes + [FaceStroke(Stroke(line, t.cursor, distance), t.value)]
    ensures Shows(r, after)
    ensures r == t.(cells := r.cells, cursor := r.cursor)
    ensures r.cursor == End(Stroke(line, t.cursor, distance))
  {
    r := Draw(t, line, distance);
    PaintStep(t, r, Stroke(line, t.cursor, distance), strokes);
    after := strokes + [FaceStroke(Stroke(line, t.cursor, distance), t.value)];
  }

  lemma EvenSteps(s: int)
    requires ValidSide(s)
    ensures Steps(s) == Half(s) && Steps(s - 2) == Half(s) - 1
  {
  }

  // ----- the faces, as in the source -----

  method DrawLeftFace(t: PixelTemplate, s: int, ghost before: seq<FaceStroke>) returns (r: PixelTemplate)
    requires ValidSide(s) && Frame(t, s) && Shows(t, before)
    ensures Frame(r, s) && Shows(r, before + LeftStrokes(s)) && r.value == Left
  {
    EvenSteps(s);
    var y := s + Half(s);
    r := SetValue(t, Left);
    ghost var done := before;
    assert before + LeftStrokes(s)[..0] == before;
    var i := 1;
    while i < s
      invariant 1 <= i <= s
      invariant Frame(r, s) && r.value == Left
      invariant done == before + LeftStrokes(s)[..i - 1] && Shows(r, done)
    {
      r := MoveTo(r, 0, y + i - s);
      r, done := DrawListed(r, SlantDown, s, done);
      assert done == before + LeftStrokes(s)[..i];
      i := i + 1;
    }
    assert LeftStrokes(s)[..s - 1] == LeftStrokes(s);
  }

  method DrawRightFace(t: PixelTemplate, s: int, ghost before: seq<FaceStroke>) returns (r: PixelTemplate)
    requires ValidSide(s) && Frame(t, s) && Shows(t, before)
    ensures Frame(r, s) && Shows(r, before + RightStrokes(s)) && r.value == Right
  {
    EvenSteps(s);
    var o := Half(s);
    var y := s + o;
    r := SetValue(t, Right);
    ghost var done := before;
    assert before + RightStrokes(s)[..0] == before;
    var i := 1;
    while i < s
      invariant 1 <= i <= s
      invariant Frame(r, s) && r.value == Right
      invariant done == before + RightStrokes(s)[..i - 1] && Shows(r, done)
    {
      r := MoveTo(r, s - 1, y + o - 1 + i - s);
      r, done := DrawListed(r, SlantUp, s, done);
      assert done == before + RightStrokes(s)[..i];
      i := i + 1;
    }
    assert RightStrokes(s)[..s - 1] == RightStrokes(s);
  }

  /** Pair i of the top face: its upward and its downward stroke. */
  lemma TopPairAt(s: int, i: int)
    requires ValidSide(s) && 1 <= i < s - 1
    ensures 2 * i <= |TopStrokes(s)|
    ensures TopStrokes(s)[2 * (i - 1)] == FaceStroke(Stroke(SlantUp, Point(2 * i, Half(s)), s - i - 1), Top)
    ensures TopStrokes(s)[2 * (i - 1) + 1] == FaceStroke(Stroke(SlantDown, Point(2 * i, Half(s)), s - i - 1), Top)
  {
  }

  /** A prefix of a list grows by the next two elements. */
  lemma PrefixGrowsByTwo<T>(before: seq<T>, a: seq<T>, n: int)
    requires 0 <= n && n + 2 <= |a|
    ensures before + a[..n] + [a[n]] + [a[n + 1]] == before + a[..n + 2]
  {
    assert a[..n + 2] == a[..n] + [a[n]] + [a[n + 1]];
  }

  /** The listed top strokes up to pair i are those up to pair i - 1 and
      then pair i's upward and downward stroke. */
  lemma TopStrokesPair(s: int, i: int, before: seq<FaceStroke>)
    requires ValidSide(s) && 1 <= i < s - 1
    ensures before + TopStrokes(s)[..2 * (i - 1)]
              + [FaceStroke(Stroke(SlantUp, Point(2 * i, Half(s)), s - i - 1), Top)]
              + [FaceStroke(Stroke(SlantDown, Point(2 * i, Half(s)), s - i - 1), Top)]
            == before + TopStrokes(s)[..2 * i]
  {
    TopPairAt(s, i);
    PrefixGrowsByTwo(before, TopStrokes(s), 2 * (i - 1));
  }

  /** One pass of the top face's loop: the upward and the downward stroke
      of pair i, both from (2i, s/2). */
  method DrawTopPair(t: PixelTemplate, s: int, i: int, ghost before: seq<FaceStroke>) returns (r: PixelTemplate)
    requires ValidSide(s) && 1 <= i < s - 1 && Frame(t, s) && t.value == Top
    requires Shows(t, before + TopStrokes(s)[..2 * (i - 1)])
    ensures Frame(r, s) && r.value == Top && Shows(r, before + TopStrokes(s)[..2 * i])
  {
    var y := s + Half(s);
    ghost var done := before + TopStrokes(s)[..2 * (i - 1)];
    r := MoveTo(t, i * 2, y - s);
    r, done := DrawListed(r, SlantUp, s - i - 1, done);
    r := MoveTo(r, i * 2, y - s);
    r, done := DrawListed(r, SlantDown, s - i - 1, done);
    TopStrokesPair(s, i, before);
  }

  method DrawTopFace(t: PixelTemplate, s: int, ghost before: seq<FaceStroke>) returns (r: PixelTemplate)
    requires ValidSide(s) && Frame(t, s) && Shows(t, before)
    ensures Frame(r, s) && Shows(r, before + TopStrokes(s)) && r.value == Top
  {
    r := SetValue(t, Top);
    assert before + TopStrokes(s)[..0] == before;
    var i := 1;
    while i < s - 1
      invariant 1 <= i <= s - 1
      invariant Frame(r, s) && r.value == Top
      invariant Shows(r, before + TopStrokes(s)[..2 * (i - 1)])
    {
      r := DrawTopPair(r, s, i, before);
      i := i + 1;
    }
    assert TopStrokes(s)[..2 * (s - 2)] == TopStrokes(s);
  }

  method DrawOutline(t: PixelTemplate, s: int, ghost before: seq<FaceStroke>) returns (r: PixelTemplate)
    requires ValidSide(s) && Frame(t, s) && Shows(t, before)
    ensures Frame(r, s) && Shows(r, before + OutlineStrokes(s)) && r.value == Outline
  {
    EvenSteps(s);
    var o := Half(s);
    var y := s + o;
    ghost var done := before;
    r := SetValue(t, Outline);
    r := MoveTo(r, 0, y);
    r, done := DrawListed(r, SlantDown, s, done);
    r := MoveRelativeTo(r, -1, -1);
    r, done := DrawListed(r, SlantUp, s, done);
    r := MoveTo(r, 0, y - s);
    r, done := DrawListed(r, Vertical, s, done);
    r := MoveTo(r, 2 * s - 1 - 1, y - s);
    r, done := DrawListed(r, Vertical, s, done);
    r := MoveTo(r, 0, y - s);
    r, done := DrawListed(r, SlantUp, s, done);
    r := MoveRelativeTo(r, -1, 1);
    r, done := DrawListed(r, SlantDown, s, done);
    assert done == before + OutlineStrokes(s);
  }

  method DrawHighlight(t: PixelTemplate, s: int, ghost before: seq<FaceStroke>) returns (r: PixelTemplate)
    requires ValidSide(s) && Frame(t, s) && Shows(t, before)
    ensures Frame(r, s) && Shows(r, before + HighlightStrokes(s)) && r.value == Highlight
  {
    EvenSteps(s);
    var o := Half(s);
    var y := s + o;
    ghost var done := before;
    r := SetValue(t, Highlight);
    r := MoveTo(r, 2, y - s + 1);
    r, done := DrawListed(r, SlantDown, s - 2, done);
    r := MoveRelativeTo(r, -1, -1);
    r, done := DrawListed(r, SlantUp, s - 2, done);
    r := MoveTo(r, s - 1, y + o - 1 - s);
    r, done := DrawListed(r, Vertical, s, done);
    assert done == before + HighlightStrokes(s);
  }

  method DrawCorner(t: PixelTemplate, s: int, ghost before: seq<FaceStroke>) returns (r: PixelTemplate)
    requires ValidSide(s) && Frame(t, s) && Shows(t, before)
    ensures Frame(r, s) && Shows(r, before + CornerStrokes(s)) && r.value == CornerHighlight
  {
    var o := Half(s);
    var y := s + o;
    ghost var done := before;
    r := SetValue(t, CornerHighlight);
    r := MoveTo(r, s - 1, y + o - 1 - s);
    r, done := DrawListed(r, Vertical, 3, done);
    r := MoveTo(r, s - 2, y + o - 1 - s);
    r, done := DrawListed(r, Horizontal, 3, done);
    assert done == before + CornerStrokes(s);
  }

  /** `_createTemplate` for an even side s >= 2: a fresh (2s - 1)-by-2s
      template whose every cell holds the tag of the last stroke covering
      it, in the order left, right, top, outline, highlight, corner
      highlight; every stroke stays inside the grid (which matters, the
      template's `setPixel` does not clip). */
  method CreateTemplate(s: int) returns (t: PixelTemplate)
    requires ValidSide(s)
    ensures t.width == 2 * s - 1 && t.height == 2 * s && WellFormed(t)
    ensures t.pattern == PatternOf(SunTopLeft) && t.lut == map[]
    ensures forall x, y :: InGrid(t.width, t.height, x, y) ==> Cell(t, x, y) == Painted(StencilStrokes(s), x, y)
    ensures t.cells == StencilCells(s)
  {
    t := NewTemplate(2 * s - 1, s + s);
    BlankShowsNothing(t);
    ghost var done: seq<FaceStroke> := [];
    t := DrawLeftFace(t, s, done);
    done := done + LeftStrokes(s);
    t := DrawRightFace(t, s, done);
    done := done + RightStrokes(s);
    t := DrawTopFace(t, s, done);
    done := done + TopStrokes(s);
    t := DrawOutline(t, s, done);
    done := done + OutlineStrokes(s);
    t := DrawHighlight(t, s, done);
    done := done + HighlightStrokes(s);
    t := DrawCorner(t, s, done);
    done := done + CornerStrokes(s);
    assert done == StencilStrokes(s);
    ShowsCells(t, done);
    CellsInRowMajorOrder(t, done);
  }

  /** The cube's cells in row-major order: cell i is column i % (2s - 1) of
      row i / (2s - 1). */
  ghost function StencilCells(s: int): (cells: seq<Face>)
    requires ValidSide(s)
    ensures |cells| == (2 * s - 1) * (2 * s)
  {
    var w := 2 * s - 1;
    seq(w * (2 * s), i => Painted(StencilStrokes(s), i % w, i / w))
  }

  /** Reading a shown list back in row-major order. */
  lemma CellsInRowMajorOrder(t: PixelTemplate, strokes: seq<FaceStroke>)
    requires Shows(t, strokes) && t.width > 0
    ensures forall i :: 0 <= i < |t.cells| ==> t.cells[i] == Painted(strokes, i % t.width, i / t.width)
  {
    var w := t.width;
    ShowsCells(t, strokes);
    forall i | 0 <= i < |t.cells|
      ensures t.cells[i] == Painted(strokes, i % w, i / w)
    {
      var x, y := i % w, i / w;
      RowMajorSplit(w, i);
      if y >= t.height {
        MulMonotone(w, t.height, y);
      }
      assert Cell(t, x, y) == t.cells[i];
    }
  }

  /** A template of transparent cells shows the empty stroke list. */
  lemma BlankShowsNothing(t: PixelTemplate)
    requires t.width >= 0 && t.height >= 0 && |t.cells| == t.width * t.height
    requires forall i :: 0 <= i < |t.cells| ==> t.cells[i] == Transparent
    ensures Shows(t, [])
  {
  }

  /** Showing a list, read cell by cell. */
  lemma ShowsCells(t: PixelTemplate, strokes: seq<FaceStroke>)
    requires Shows(t, strokes)
    ensures WellFormed(t)
    ensures forall x, y :: InGrid(t.width, t.height, x, y) ==> Cell(t, x, y) == Painted(strokes, x, y)
  {
  }

  // ----- what the stencil looks like -----

  /** `Painted` against its declarative reading: the tag is that of a
      covering stroke no later stroke covers, and transparent exactly when
      no stroke covers the cell. */
  lemma {:induction false} PaintedIsLastCover(strokes: seq<FaceStroke>, x: int, y: int)
    ensures (forall i :: 0 <= i < |strokes| ==> !Covers(strokes[i].stroke, x, y)) ==> Painted(strokes, x, y) == Transparent
    ensures forall i :: 0 <= i < |strokes| && Covers(strokes[i].stroke, x, y)
                     && (forall j :: i < j < |strokes| ==> !Covers(strokes[j].stroke, x, y))
                     ==> Painted(strokes, x, y) == strokes[i].face
  {
    if |strokes| > 0 {
      var init := strokes[..|strokes| - 1];
      PaintedIsLastCover(init, x, y);
      forall i | 0 <= i < |strokes| && Covers(strokes[i].stroke, x, y)
                 && (forall j :: i < j < |strokes| ==> !Covers(strokes[j].stroke, x, y))
        ensures Painted(strokes, x, y) == strokes[i].face
      {
        if i < |strokes| - 1 {
          assert init[i] == strokes[i];
          assert forall j :: i < j < |init| ==> init[j] == strokes[j];
        }
      }
      if forall i :: 0 <= i < |strokes| ==> !Covers(strokes[i].stroke, x, y) {
        assert forall i :: 0 <= i < |init| ==> init[i] == strokes[i];
      }
    }
  }

  /** Every stroke of the list stays inside a w-by-h grid. */
  predicate AllFit(strokes: seq<FaceStroke>, w: int, h: int) {
    forall i :: 0 <= i < |strokes| ==> Fits(strokes[i].stroke, w, h)
  }

  lemma AllFitConcat(a: seq<FaceStroke>, b: seq<FaceStroke>, w: int, h: int)
    requires AllFit(a, w, h) && AllFit(b, w, h)
    ensures AllFit(a + b, w, h)
  {
    forall i | 0 <= i < |a + b|
      ensures Fits((a + b)[i].stroke, w, h)
    {
      if i >= |a| {
        assert (a + b)[i] == b[i - |a|];
      }
    }
  }

  lemma TopFits(s: int)
    requires ValidSide(s)
    ensures AllFit(TopStrokes(s), 2 * s - 1, 2 * s)
  {
    forall j | 0 <= j < |TopStrokes(s)|
      ensures Fits(TopStrokes(s)[j].stroke, 2 * s - 1, 2 * s)
    {
      var k := j / 2 + 1;
      assert 2 * Steps(s - k - 1) <= s - k;
    }
  }

  /** Every stroke of the cube stays inside the (2s - 1)-by-2s grid, so the
      unclipped `setPixel` of the template is never asked to write outside. */
  lemma StencilFits(s: int)
    requires ValidSide(s)
    ensures forall i :: 0 <= i < |StencilStrokes(s)| ==> Fits(StencilStrokes(s)[i].stroke, 2 * s - 1, 2 * s)
  {
    var w, h := 2 * s - 1, 2 * s;
    EvenSteps(s);
    assert AllFit(LeftStrokes(s), w, h);
    assert AllFit(RightStrokes(s), w, h);
    TopFits(s);
    assert AllFit(OutlineStrokes(s), w, h);
    assert AllFit(HighlightStrokes(s), w, h);
    assert AllFit(CornerStrokes(s), w, h);
    AllFitConcat(LeftStrokes(s), RightStrokes(s), w, h);
    AllFitConcat(LeftStrokes(s) + RightStrokes(s), TopStrokes(s), w, h);
    AllFitConcat(LeftStrokes(s) + RightStrokes(s) + TopStrokes(s), OutlineStrokes(s), w, h);
    AllFitConcat(LeftStrokes(s) + RightStrokes(s) + TopStrokes(s) + OutlineStrokes(s), HighlightStrokes(s), w, h);
    AllFitConcat(LeftStrokes(s) + RightStrokes(s) + TopStrokes(s) + OutlineStrokes(s) + HighlightStrokes(s), CornerStrokes(s), w, h);
  }

  /** Drawing b after a: where some stroke of b covers the cell b decides
      it, elsewhere a does. */
  lemma {:induction false} PaintedSplit(a: seq<FaceStroke>, b: seq<FaceStroke>, x: int, y: int)
    ensures (exists i :: 0 <= i < |b| && Covers(b[i].stroke, x, y)) ==> Painted(a + b, x, y) == Painted(b, x, y)
    ensures (forall i :: 0 <= i < |b| ==> !Covers(b[i].stroke, x, y)) ==> Painted(a + b, x, y) == Painted(a, x, y)
  {
    if |b| == 0 {
      assert a + b == a;
    } else {
      var init := b[..|b| - 1];
      assert (a + b)[..|a + b| - 1] == a + init;
      PaintedSplit(a, init, x, y);
      if !Covers(b[|b| - 1].stroke, x, y) {
        if exists i :: 0 <= i < |b| && Covers(b[i].stroke, x, y) {
          var i :| 0 <= i < |b| && Covers(b[i].stroke, x, y);
          assert init[i] == b[i];
        }
        if forall i :: 0 <= i < |b| ==> !Covers(b[i].stroke, x, y) {
          assert forall i :: 0 <= i < |init| ==> init[i] == b[i];
        }
      }
    }
  }

  /** How late a tag's strokes come in the drawing. */
  function DrawRank(f: Face): nat {
    match f
    case Left => 0
    case Right => 1
    case Top => 2
    case Outline => 3
    case Highlight => 4
    case CornerHighlight => 5
    case Transparent => 6
  }

  /** The rank of the face of stroke i of the whole drawing, read off the
      lengths of the six lists. */
  function StrokeRank(s: int, i: int): int {
    var n1 := s - 1;
    var n2 := n1 + (s - 1);
    var n3 := n2 + 2 * (s - 2);
    if i < n1 then 0 else if i < n2 then 1 else if i < n3 then 2
    else if i < n3 + 6 then 3 else if i < n3 + 9 then 4 else 5
  }

  lemma StencilRankAt(s: int, i: int)
    requires ValidSide(s) && 0 <= i < |StencilStrokes(s)|
    ensures DrawRank(StencilStrokes(s)[i].face) == StrokeRank(s, i)
  {
    var all := StencilStrokes(s);
    var n1 := s - 1;
    var n2 := n1 + (s - 1);
    var n3 := n2 + 2 * (s - 2);
    if i < n1 {
      assert all[i] == LeftStrokes(s)[i];
    } else if i < n2 {
      assert all[i] == RightStrokes(s)[i - n1];
    } else if i < n3 {
      assert all[i] == TopStrokes(s)[i - n2];
    } else if i < n3 + 6 {
      assert all[i] == OutlineStrokes(s)[i - n3];
    } else if i < n3 + 9 {
      assert all[i] == HighlightStrokes(s)[i - n3 - 6];
    } else {
      assert all[i] == CornerStrokes(s)[i - n3 - 9];
    }
  }

  /** The faces are drawn in the order left, right, top, outline,
      highlight, corner highlight: so where faces overlap the later one
      shows. */
  lemma StencilFaceOrder(s: int)
    requires ValidSide(s)
    ensures forall i, j :: 0 <= i < j < |StencilStrokes(s)| ==>
              DrawRank(StencilStrokes(s)[i].face) <= DrawRank(StencilStrokes(s)[j].face)
    ensures forall i :: 0 <= i < |StencilStrokes(s)| ==> StencilStrokes(s)[i].face != Transparent
  {
    var all := StencilStrokes(s);
    forall i, j | 0 <= i < j < |all|
      ensures DrawRank(all[i].face) <= DrawRank(all[j].face)
    {
      StencilRankAt(s, i);
      StencilRankAt(s, j);
    }
    forall i | 0 <= i < |all|
      ensures all[i].face != Transparent
    {
      StencilRankAt(s, i);
    }
  }

  /** The top row of the grid is never drawn: the highest strokes reach
      row 1 only. */
  lemma StencilTopRowBlank(s: int, x: int)
    requires ValidSide(s)
    ensures Painted(StencilStrokes(s), x, 0) == Transparent
  {
    EvenSteps(s);
    var all := StencilStrokes(s);
    var n1 := s - 1;
    var n2 := n1 + (s - 1);
    var n3 := n2 + 2 * (s - 2);
    forall i | 0 <= i < |all|
      ensures !Covers(all[i].stroke, x, 0)
    {
      if i < n1 {
        assert all[i] == LeftStrokes(s)[i];
      } else if i < n2 {
        assert all[i] == RightStrokes(s)[i - n1];
      } else if i < n3 {
        assert all[i] == TopStrokes(s)[i - n2];
        var k := (i - n2) / 2 + 1;
        assert 2 * Steps(s - k - 1) <= s - k;
      }
    }
    PaintedIsLastCover(all, x, 0);
  }

  /** The corner highlight's two 3-cell marks meeting at (s - 1, s - 1)
      are never overdrawn. */
  lemma StencilCornerMark(s: int, x: int, y: int)
    requires ValidSide(s)
    requires (x == s - 1 && s - 1 <= y < s + 2) || (y == s - 1 && s - 2 <= x < s + 1)
    ensures Painted(StencilStrokes(s), x, y) == CornerHighlight
  {
  }

  /** The smallest cube's side columns below the corner mark are outline:
      the outline covers them and nothing drawn afterwards does. */
  lemma SmallestOutlineCell(x: int, y: int)
    requires (x == 0 || x == 2) && 2 <= y < 4
    ensures Painted(StencilStrokes(2), x, y) == Outline
  {
    var front := LeftStrokes(2) + RightStrokes(2) + TopStrokes(2);
    var os := OutlineStrokes(2);
    var back := HighlightStrokes(2) + CornerStrokes(2);
    assert StencilStrokes(2) == (front + os) + back;
    assert forall i :: 0 <= i < |back| ==> !Covers(back[i].stroke, x, y);
    PaintedSplit(front + os, back, x, y);
    var i := if x == 0 && y == 3 then 0 else if x == 2 && y == 3 then 1 else if x == 0 then 2 else 3;
    assert Covers(os[i].stroke, x, y);
    assert forall j :: i < j < |os| ==> !Covers(os[j].stroke, x, y);
    PaintedSplit(front, os, x, y);
    PaintedIsLastCover(os, x, y);
  }

  /** The smallest cube, s = 2, on its 3-by-4 grid (rows top to bottom):
      a blank row, a row of corner highlight, then two rows of outline,
      corner highlight, outline. */
  lemma SmallestStencil()
    ensures forall x | 0 <= x < 3 :: Painted(StencilStrokes(2), x, 0) == Transparent
    ensures forall x | 0 <= x < 3 :: Painted(StencilStrokes(2), x, 1) == CornerHighlight
    ensures forall y | 2 <= y < 4 :: Painted(StencilStrokes(2), 0, y) == Outline
    ensures forall y | 2 <= y < 4 :: Painted(StencilStrokes(2), 1, y) == CornerHighlight
    ensures forall y | 2 <= y < 4 :: Painted(StencilStrokes(2), 2, y) == Outline
  {
    forall x | 0 <= x < 3 ensures Painted(StencilStrokes(2), x, 0) == Transparent {
      StencilTopRowBlank(2, x);
    }
    forall x | 0 <= x < 3 ensures Painted(StencilStrokes(2), x, 1) == CornerHighlight {
      StencilCornerMark(2, x, 1);
    }
    forall y | 2 <= y < 4 ensures Painted(StencilStrokes(2), 1, y) == CornerHighlight {
      StencilCornerMark(2, 1, y);
    }
    forall x, y | (x == 0 || x == 2) && 2 <= y < 4
      ensures Painted(StencilStrokes(2), x, y) == Outline
    {
      SmallestOutlineCell(x, y);
    }
  }
}
