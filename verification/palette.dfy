/** The six-shade palette derived from one base colour (`src/palette.js`)
    and the mapping from a face tag to its palette colour that every
    colouriser and accessor shares. */
module Palettes {
  import opened Color
  import opened Pix

  datatype Palette = Palette(
    normalSide: RGB,
    darkSide: RGB,
    darkestSide: RGB,
    highlight: RGB,
    cornerHighlight: RGB,
    outline: RGB)

  /** `new Palette(color)`: the base colour itself, and five shades obtained
      by scaling the HSL lightness and converting back. */
  function MakePalette(c: RGB): (p: Palette)
    requires HSLDefined(c)
    ensures p.normalSide == c
    ensures p.darkSide.a == 1.0 && p.darkestSide.a == 1.0 && p.highlight.a == 1.0
    ensures p.cornerHighlight.a == 1.0 && p.outline.a == 1.0
  {
    var hsl := GetHSL(c);
    Palette(
      c,
      GetRGB(Darken(hsl, 30.0)),
      GetRGB(Darken(hsl, 60.0)),
      GetRGB(Lighten(hsl, 30.0)),
      GetRGB(Lighten(hsl, 80.0)),
      GetRGB(Darken(hsl, 90.0)))
  }

  /** The palette field a pattern names. */
  function ShadeOf(p: Palette, sh: Shade): RGB {
    match sh
    case NormalSide => p.normalSide
    case DarkSide => p.darkSide
    case DarkestSide => p.darkestSide
  }

  /** The colour a face tag receives from a palette under a look-up pattern:
      the three lit faces through the pattern, the three edge tags from
      fixed fields, and the transparent tag the shared transparent black. */
  function FaceColor(p: Palette, pat: Pattern, f: Face): RGB {
    match f
    case Left => ShadeOf(p, pat.leftSide)
    case Right => ShadeOf(p, pat.rightSide)
    case Top => ShadeOf(p, pat.topSide)
    case Outline => p.outline
    case Highlight => p.highlight
    case CornerHighlight => p.cornerHighlight
    case Transparent => TransparentColor
  }

  /** The lightness each derived shade has before it is converted back to
      RGB: 0.7, 0.4, 1.3, 1.8 and 0.1 times the base lightness, in that
      order; for a non-negative base lightness they are ordered
      outline, darkest, dark, base, highlight, corner highlight. */
  lemma LightnessLadder(c: RGB)
    requires HSLDefined(c)
    ensures var l := GetHSL(c).l;
      && Darken(GetHSL(c), 30.0).l == 0.7 * l
      && Darken(GetHSL(c), 60.0).l == 0.4 * l
      && Lighten(GetHSL(c), 30.0).l == 1.3 * l
      && Lighten(GetHSL(c), 80.0).l == 1.8 * l
      && Darken(GetHSL(c), 90.0).l == 0.1 * l
      && (l >= 0.0 ==> 0.1 * l <= 0.4 * l <= 0.7 * l <= l <= 1.3 * l <= 1.8 * l)
  {
  }

  /** The five derived shades share the base colour's hue and saturation;
      only the lightness differs. */
  lemma ShadesKeepHueAndSaturation(c: RGB, amount: real)
    requires HSLDefined(c)
    ensures Darken(GetHSL(c), amount).h == GetHSL(c).h
    ensures Darken(GetHSL(c), amount).s == GetHSL(c).s
    ensures Lighten(GetHSL(c), amount).h == GetHSL(c).h
    ensures Lighten(GetHSL(c), amount).s == GetHSL(c).s
  {
  }

  /** A grey base colour gives grey shades whose channels are the scaled
      grey level. */
  lemma GreyPalette(v: real, a: real)
    ensures var p := MakePalette(RGB(v, v, v, a));
      && p.darkSide == RGB(0.7 * v, 0.7 * v, 0.7 * v, 1.0)
      && p.darkestSide == RGB(0.4 * v, 0.4 * v, 0.4 * v, 1.0)
      && p.highlight == RGB(1.3 * v, 1.3 * v, 1.3 * v, 1.0)
      && p.cornerHighlight == RGB(1.8 * v, 1.8 * v, 1.8 * v, 1.0)
      && p.outline == RGB(0.1 * v, 0.1 * v, 0.1 * v, 1.0)
  {
    var c := RGB(v, v, v, a);
    assert Max3(c) == v && Min3(c) == v;
  }

  /** For a base colour with channels in [0, 1], the three darkened shades
      have channels in [0, 1] as well (the lightened ones may not). */
  lemma DarkShadesInRange(c: RGB)
    requires ValidRGB(c)
    ensures HSLDefined(c)
    ensures ValidRGB(MakePalette(c).darkSide)
    ensures ValidRGB(MakePalette(c).darkestSide)
    ensures ValidRGB(MakePalette(c).outline)
  {
    GetHSLInRange(c);
    var hsl := GetHSL(c);
    DarkenLightenMonotone(hsl, 30.0);
    DarkenLightenMonotone(hsl, 60.0);
    DarkenLightenMonotone(hsl, 90.0);
    GetRGBInRange(Darken(hsl, 30.0));
    GetRGBInRange(Darken(hsl, 60.0));
    GetRGBInRange(Darken(hsl, 90.0));
  }

  /** Three values in any of the orders the sun positions use form the
      same multiset. */
  lemma Permuted3<T>(a: T, b: T, c: T)
    ensures multiset{b, a, c} == multiset{a, b, c}
    ensures multiset{b, c, a} == multiset{a, b, c}
    ensures multiset{a, c, b} == multiset{a, b, c}
  {
  }

  /** Whatever the sun position, the three lit faces receive the three
      shades normal, dark and darkest, each exactly once, and the edge and
      transparent tags receive the same colour under every pattern. */
  lemma SunPositionPermutesShades(p: Palette, sp: SunPosition, pat: Pattern, f: Face)
    ensures multiset{FaceColor(p, PatternOf(sp), Top), FaceColor(p, PatternOf(sp), Left), FaceColor(p, PatternOf(sp), Right)}
         == multiset{p.normalSide, p.darkSide, p.darkestSide}
    ensures f != Top && f != Left && f != Right ==> FaceColor(p, pat, f) == FaceColor(p, PatternOf(sp), f)
  {
    var n, d, k := p.normalSide, p.darkSide, p.darkestSide;
    Permuted3(n, d, k);
    match sp
    case SunLeft => assert PatternOf(sp) == Pattern(DarkSide, NormalSide, DarkestSide);
    case SunRight => assert PatternOf(sp) == Pattern(DarkSide, DarkestSide, NormalSide);
    case SunTopRight => assert PatternOf(sp) == Pattern(NormalSide, DarkestSide, DarkSide);
    case SunTopLeft => assert PatternOf(sp) == Pattern(NormalSide, DarkSide, DarkestSide);
  }

  /** Colouring a whole stencil: every tag replaced by its palette colour
      under the pattern, cell for cell. */
  function Colorize(cells: seq<Face>, pat: Pattern, p: Palette): (r: seq<RGB>)
    ensures |r| == |cells|
    ensures forall i :: 0 <= i < |cells| && cells[i] == Left ==> r[i] == ShadeOf(p, pat.leftSide)
    ensures forall i :: 0 <= i < |cells| && cells[i] == Right ==> r[i] == ShadeOf(p, pat.rightSide)
    ensures forall i :: 0 <= i < |cells| && cells[i] == Top ==> r[i] == ShadeOf(p, pat.topSide)
    ensures forall i :: 0 <= i < |cells| && cells[i] == Outline ==> r[i] == p.outline
    ensures forall i :: 0 <= i < |cells| && cells[i] == Highlight ==> r[i] == p.highlight
    ensures forall i :: 0 <= i < |cells| && cells[i] == CornerHighlight ==> r[i] == p.cornerHighlight
    ensures forall i :: 0 <= i < |cells| && cells[i] == Transparent ==> r[i] == TransparentColor
  {
    seq(|cells|, i requires 0 <= i < |cells| => FaceColor(p, pat, cells[i]))
  }

  /** Changing the light direction recolours only the three lit faces: the
      edge and transparent cells of two colourings agree. */
  lemma ColorizeEdgesIgnorePattern(cells: seq<Face>, pat1: Pattern, pat2: Pattern, p: Palette, i: int)
    requires 0 <= i < |cells| && cells[i] != Top && cells[i] != Left && cells[i] != Right
    ensures Colorize(cells, pat1, p)[i] == Colorize(cells, pat2, p)[i]
  {
  }

  /** One cell of a colouring is the face colour of its tag. */
  lemma ColorizeAt(cells: seq<Face>, pat: Pattern, p: Palette, i: int)
    requires 0 <= i < |cells|
    ensures Colorize(cells, pat, p)[i] == FaceColor(p, pat, cells[i])
  {
  }

  /** A colour is drawn only where the tag is not transparent: for a palette
      built from a visible colour, a colourised cell has alpha 0 exactly when
      its tag is transparent. */
  lemma ColorizedAlpha(cells: seq<Face>, pat: Pattern, c: RGB, i: int)
    requires HSLDefined(c) && c.a != 0.0 && 0 <= i < |cells|
    ensures Colorize(cells, pat, MakePalette(c))[i].a == 0.0 <==> cells[i] == Transparent
  {
  }
}
