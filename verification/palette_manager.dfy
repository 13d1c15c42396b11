/** `src/paletteManager.js`: a memo table from colour to palette (or to no
    palette, for transparent colours) plus the current look-up pattern. */
module PaletteManager {
  import opened Wrappers
  import opened Color
  import opened Pix
  import opened Palettes

  datatype Manager = Manager(lut: map<ColorKey, Option<Palette>>, pattern: Pattern)

  /** The colours the manager can be asked about: a transparent colour never
      reaches the HSL conversion, any other must convert without dividing
      by zero. */
  predicate Paletteable(c: RGB) {
    c.a == 0.0 || HSLDefined(c)
  }

  /** What `getPalette` computes for a colour it has not seen: no palette
      for alpha 0, the derived palette otherwise. */
  function BuildPalette(c: RGB): (r: Option<Palette>)
    requires Paletteable(c)
    ensures r.None? <==> c.a == 0.0
    ensures r.Some? ==> r.value.normalSide == c
  {
    if c.a != 0.0 then Some(MakePalette(c)) else None
  }

  /** Every stored entry is what would be computed afresh for its key. */
  ghost predicate Coherent(m: Manager) {
    forall k :: k in m.lut ==> Paletteable(ColorOfKey(k)) && m.lut[k] == BuildPalette(ColorOfKey(k))
  }

  /** A fresh manager: empty table, sun at the top left. */
  function NewManager(): (m: Manager)
    ensures m.lut == map[] && m.pattern == PatternOf(SunTopLeft)
    ensures Coherent(m)
  {
    Manager(map[], DefaultPattern)
  }

  /** The result of a query: the updated manager and the answer. */
  datatype Answer<T> = Answer(manager: Manager, value: T)

  /** `getPalette`: looked up by colour key; a missing entry, or a stored
      `null` (which JavaScript treats as missing), is computed and stored. */
  function GetPalette(m: Manager, c: RGB): (r: Answer<Option<Palette>>)
    requires Coherent(m) && Paletteable(c)
    ensures r.value.None? <==> c.a == 0.0
    ensures r.value == BuildPalette(c)
    ensures Coherent(r.manager)
    ensures r.manager.pattern == m.pattern
    ensures r.manager.lut.Keys == m.lut.Keys + {Key(c)}
    ensures forall k :: k in m.lut ==> r.manager.lut[k] == m.lut[k]
  {
    KeyIsInjective(c, c);
    var k := Key(c);
    var lut := if k !in m.lut || m.lut[k].None? then m.lut[k := BuildPalette(c)] else m.lut;
    Answer(m.(lut := lut), lut[k])
  }

  /** Asking twice with colours of the same key gives the same stored
      palette, and the second call leaves the table as the first left it. */
  lemma SameKeySamePalette(m: Manager, c: RGB, d: RGB)
    requires Coherent(m) && Paletteable(c) && Key(c) == Key(d)
    ensures Paletteable(d)
    ensures var first := GetPalette(m, c);
      && GetPalette(first.manager, d).value == first.value
      && GetPalette(first.manager, d).manager == first.manager
  {
    KeyIsInjective(c, d);
  }

  /** `isColorValid`: whether a palette exists; it fills the table as a side
      effect of asking. */
  function IsColorValid(m: Manager, c: RGB): (r: Answer<bool>)
    requires Coherent(m) && Paletteable(c)
    ensures r.value <==> c.a != 0.0
    ensures r.value <==> GetPalette(m, c).value.Some?
    ensures r.manager == GetPalette(m, c).manager
  {
    var a := GetPalette(m, c);
    Answer(a.manager, a.value.Some?)
  }

  /** `setSunPosition`: positions 0..3 install their pattern, any other
      value is ignored; the palette table is never touched. */
  function SetSunPosition(m: Manager, position: int): (r: Manager)
    ensures r.lut == m.lut
    ensures 0 <= position < 4 ==> r.pattern == PaletteLookUpPatterns[position]
    ensures !(0 <= position < 4) ==> r.pattern == m.pattern
  {
    match PatternAt(position)
    case Some(pat) => m.(pattern := pat)
    case None => m
  }

  /** The accessors `getTopColor` .. `getCornerHightlightColor`: the palette's
      colour for one face. For a transparent colour the source dereferences
      `null` and throws; that is the `None` answer here. */
  function GetFaceColor(m: Manager, c: RGB, f: Face): (r: Answer<Option<RGB>>)
    requires Coherent(m) && Paletteable(c) && f != Transparent
    ensures r.value.None? <==> c.a == 0.0
    ensures c.a != 0.0 ==> r.value == Some(FaceColor(MakePalette(c), m.pattern, f))
    ensures r.manager == GetPalette(m, c).manager
  {
    var a := GetPalette(m, c);
    match a.value
    case None => Answer(a.manager, None)
    case Some(p) => Answer(a.manager, Some(FaceColor(p, m.pattern, f)))
  }

  function GetTopColor(m: Manager, c: RGB): Answer<Option<RGB>>
    requires Coherent(m) && Paletteable(c)
  { GetFaceColor(m, c, Top) }

  function GetLeftColor(m: Manager, c: RGB): Answer<Option<RGB>>
    requires Coherent(m) && Paletteable(c)
  { GetFaceColor(m, c, Left) }

  function GetRightColor(m: Manager, c: RGB): Answer<Option<RGB>>
    requires Coherent(m) && Paletteable(c)
  { GetFaceColor(m, c, Right) }

  function GetOutlineColor(m: Manager, c: RGB): Answer<Option<RGB>>
    requires Coherent(m) && Paletteable(c)
  { GetFaceColor(m, c, Outline) }

  function GetHighlightColor(m: Manager, c: RGB): Answer<Option<RGB>>
    requires Coherent(m) && Paletteable(c)
  { GetFaceColor(m, c, Highlight) }

  function GetCornerHighlightColor(m: Manager, c: RGB): Answer<Option<RGB>>
    requires Coherent(m) && Paletteable(c)
  { GetFaceColor(m, c, CornerHighlight) }

  /** The top, left and right accessors follow the current sun position:
      the lit face gets the base colour itself. The outline, highlight and
      corner-highlight accessors give the same colour whatever the sun
      position. */
  lemma AccessorsFollowSun(m: Manager, c: RGB, position: int)
    requires Coherent(m) && c.a != 0.0 && HSLDefined(c) && 0 <= position < 4
    ensures var m' := SetSunPosition(m, position);
      && Coherent(m')
      && (position == SunCode(SunLeft) ==> GetLeftColor(m', c).value == Some(c))
      && (position == SunCode(SunRight) ==> GetRightColor(m', c).value == Some(c))
      && (position == SunCode(SunTopLeft) || position == SunCode(SunTopRight) ==> GetTopColor(m', c).value == Some(c))
      && GetOutlineColor(m', c).value == GetOutlineColor(m, c).value
      && GetHighlightColor(m', c).value == GetHighlightColor(m, c).value
      && GetCornerHighlightColor(m', c).value == GetCornerHighlightColor(m, c).value
  {
  }
}
