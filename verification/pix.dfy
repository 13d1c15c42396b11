/** The shared constants of the renderer: the face tags a cube stencil is
    made of, the four sun positions and the table that says, for each sun
    position, which palette shade lands on which visible face. */
module Pix {
  import opened Wrappers

  /** The seven face tags of a stencil cell. */
  datatype Face = CornerHighlight | Left | Right | Top | Outline | Highlight | Transparent

  /** The integer the source stores for each tag. */
  function FaceCode(f: Face): int {
    match f
    case CornerHighlight => 0
    case Left => 1
    case Right => 2
    case Top => 3
    case Outline => 4
    case Highlight => 5
    case Transparent => 6
  }

  /** Decodes a stored integer back into its tag; anything outside 0..6 is no tag. */
  function FaceOfCode(n: int): (r: Option<Face>)
    ensures r.Some? <==> 0 <= n <= 6
    ensures r.Some? ==> FaceCode(r.value) == n
  {
    if n == 0 then Some(CornerHighlight)
    else if n == 1 then Some(Left)
    else if n == 2 then Some(Right)
    else if n == 3 then Some(Top)
    else if n == 4 then Some(Outline)
    else if n == 5 then Some(Highlight)
    else if n == 6 then Some(Transparent)
    else None
  }

  /** The seven tags are distinct integers in 0..6 and every code decodes back to its tag. */
  lemma FaceCodesDistinct(f: Face, g: Face)
    ensures 0 <= FaceCode(f) <= 6
    ensures FaceOfCode(FaceCode(f)) == Some(f)
    ensures FaceCode(f) == FaceCode(g) <==> f == g
  {
  }

  /** The four positions of the light source. */
  datatype SunPosition = SunLeft | SunRight | SunTopRight | SunTopLeft

  function SunCode(p: SunPosition): int {
    match p
    case SunLeft => 0
    case SunRight => 1
    case SunTopRight => 2
    case SunTopLeft => 3
  }

  /** The three palette shades a lit face can receive. */
  datatype Shade = NormalSide | DarkSide | DarkestSide

  /** Which shade each of the three visible faces receives. */
  datatype Pattern = Pattern(topSide: Shade, leftSide: Shade, rightSide: Shade)

  /** The 4-entry look-up table, indexed by sun code. */
  const PaletteLookUpPatterns: seq<Pattern> := [
    Pattern(DarkSide, NormalSide, DarkestSide),   // sun on the left
    Pattern(DarkSide, DarkestSide, NormalSide),   // sun on the right
    Pattern(NormalSide, DarkestSide, DarkSide),   // sun top right
    Pattern(NormalSide, DarkSide, DarkestSide)    // sun top left
  ]

  /** Looking an integer up in the table: only 0..3 name a pattern. */
  function PatternAt(position: int): (r: Option<Pattern>)
    ensures r.Some? <==> 0 <= position < 4
  {
    if 0 <= position < |PaletteLookUpPatterns| then Some(PaletteLookUpPatterns[position]) else None
  }

  function PatternOf(p: SunPosition): Pattern {
    PaletteLookUpPatterns[SunCode(p)]
  }

  /** The pattern a fresh palette manager or template starts with. */
  const DefaultPattern: Pattern := PatternOf(SunTopLeft)

  /** The three faces receive three different shades. */
  predicate IsPermutation(p: Pattern) {
    && p.topSide != p.leftSide
    && p.topSide != p.rightSide
    && p.leftSide != p.rightSide
  }

  /** Every sun code indexes a pattern, every pattern is a permutation of the
      three shades, and the face turned to the sun gets the untouched base
      colour. */
  lemma SunPositionsIndexPermutations(p: SunPosition)
    ensures PatternAt(SunCode(p)) == Some(PatternOf(p))
    ensures IsPermutation(PatternOf(p))
    ensures p == SunLeft ==> PatternOf(p).leftSide == NormalSide
    ensures p == SunRight ==> PatternOf(p).rightSide == NormalSide
    ensures p == SunTopLeft || p == SunTopRight ==> PatternOf(p).topSide == NormalSide
    ensures forall q: SunPosition :: SunCode(q) == SunCode(p) ==> q == p
  {
  }

  /** In every pattern each shade is used exactly once: whichever shade you
      name, exactly one face receives it. */
  lemma EveryShadeUsedOnce(p: SunPosition, sh: Shade)
    ensures var pat := PatternOf(p);
      (if pat.topSide == sh then 1 else 0) + (if pat.leftSide == sh then 1 else 0)
        + (if pat.rightSide == sh then 1 else 0) == 1
  {
  }
}
