/** `src/templateManager.js`: a holder for a cube template that colours it
    with a palette, memoised by the palette's base colour. It duplicates
    the colouring of `PixelTemplate.getColorizedTemplate`. */
module TemplateManager {
  import opened Wrappers
  import opened Color
  import opened Pix
  import opened Palettes
  import T = Template

  /** The held template's cells (`None` for the initial empty object, whose
      `getTemplate` does not exist), the memo table and the pattern. */
  datatype TemplateManager = TemplateManager(template: Option<seq<Face>>, lut: map<ColorKey, seq<RGB>>, pattern: Pattern)

  /** The constructor: no template, empty table, the top/normal,
      left/dark, right/darkest pattern. */
  function NewTemplateManager(): (m: TemplateManager)
    ensures m.template.None? && m.lut == map[]
    ensures m.pattern.topSide == NormalSide && m.pattern.leftSide == DarkSide && m.pattern.rightSide == DarkestSide
  {
    TemplateManager(None, map[], Pattern(NormalSide, DarkSide, DarkestSide))
  }

  /** The manager's default pattern is the palette manager's default, the
      sun at the top left. */
  lemma DefaultIsTopLeft()
    ensures NewTemplateManager().pattern == PatternOf(SunTopLeft)
  {
  }

  /** `setTemplate`: replaces the cells; table and pattern are kept. */
  function SetTemplate(m: TemplateManager, cells: seq<Face>): (r: TemplateManager)
    ensures GetTemplate(r) == Some(cells)
    ensures r.lut == m.lut && r.pattern == m.pattern
  {
    m.(template := Some(cells))
  }

  function GetTemplate(m: TemplateManager): Option<seq<Face>> {
    m.template
  }

  /** `setPaletteLookUpPattern`: replaces the pattern; table and template are kept. */
  function SetPaletteLookUpPattern(m: TemplateManager, pat: Pattern): (r: TemplateManager)
    ensures r.pattern == pat && r.lut == m.lut && r.template == m.template
  {
    m.(pattern := pat)
  }

  datatype Colored = Colored(manager: TemplateManager, colors: seq<RGB>)

  /** `colorizeTemplate`: a base colour seen before returns its stored
      colouring, even with no template held; otherwise the held template is
      coloured with the current pattern and stored. Without a template the
      source calls a method the empty object lacks and throws: `None`. */
  function ColorizeTemplate(m: TemplateManager, p: Palette): (r: Option<Colored>)
    ensures Key(p.normalSide) in m.lut ==> r == Some(Colored(m, m.lut[Key(p.normalSide)]))
    ensures Key(p.normalSide) !in m.lut ==> (r.None? <==> m.template.None?)
    ensures Key(p.normalSide) !in m.lut && m.template.Some? ==>
      && r.value.colors == Colorize(m.template.value, m.pattern, p)
      && r.value.manager == m.(lut := m.lut[Key(p.normalSide) := r.value.colors])
  {
    var k := Key(p.normalSide);
    if k in m.lut then Some(Colored(m, m.lut[k]))
    else match m.template
      case None => None
      case Some(cells) =>
        var colors := Colorize(cells, m.pattern, p);
        Some(Colored(m.(lut := m.lut[k := colors]), colors))
  }

  /** Every stored colouring is the held template under the current
      pattern and the palette of its key. */
  ghost predicate Coherent(m: TemplateManager) {
    forall k :: k in m.lut ==>
      && m.template.Some? && HSLDefined(ColorOfKey(k))
      && m.lut[k] == Colorize(m.template.value, m.pattern, MakePalette(ColorOfKey(k)))
  }

  /** While template and pattern stay fixed, the memo table changes nothing
      observable: a colour's palette is coloured as it would be afresh. */
  lemma MemoIsTransparent(m: TemplateManager, c: RGB)
    requires Coherent(m) && m.template.Some? && HSLDefined(c)
    ensures ColorizeTemplate(m, MakePalette(c)).Some?
    ensures ColorizeTemplate(m, MakePalette(c)).value.colors == Colorize(m.template.value, m.pattern, MakePalette(c))
    ensures Coherent(ColorizeTemplate(m, MakePalette(c)).value.manager)
  {
    KeyIsInjective(c, c);
  }

  /** Replacing the template does not clear the table: a base colour
      coloured before still gets the old template's colouring. */
  lemma NewTemplateKeepsStaleColoring(m: TemplateManager, p: Palette, cells: seq<Face>)
    requires ColorizeTemplate(m, p).Some?
    ensures var first := ColorizeTemplate(m, p).value;
      ColorizeTemplate(SetTemplate(first.manager, cells), p) == Some(Colored(SetTemplate(first.manager, cells), first.colors))
  {
  }

  /** The manager colours exactly as `PixelTemplate.getColorizedTemplate`
      does when both hold the same cells, pattern and table. */
  lemma AgreesWithTemplate(m: TemplateManager, t: T.PixelTemplate, p: Palette)
    requires m.template == Some(t.cells) && m.pattern == t.pattern && m.lut == t.lut
    ensures ColorizeTemplate(m, p).Some?
    ensures ColorizeTemplate(m, p).value.colors == T.GetColorizedTemplate(t, p).colors
    ensures ColorizeTemplate(m, p).value.manager.lut == T.GetColorizedTemplate(t, p).template.lut
  {
  }
}
