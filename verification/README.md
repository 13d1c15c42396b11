# Pixify in Dafny

Pixify turns a small sprite into isometric pixel art. Each sprite pixel becomes a cube: three shaded faces, an outline and two highlights. The cubes are stamped onto a canvas in back-to-front order. This project models the pieces of that pipeline and proves what they compute.

**Stencil.** The cube stencil is built by `_createTemplate` from four cursor line primitives. `Stencil.CreateTemplate` runs the same cursor moves. It is proved to paint a closed-form stroke list, with every stroke inside the (2s − 1)-by-2s grid.

**Colouring.** Colouring maps each face tag to a colour. The colour comes from a palette of six colours derived from the base colour through HSL, and the light direction picks which shade goes on which face. The palette table and the two colouring tables are memoised. The palette table is proved transparent: the stored answer is always what would be computed afresh. The two colouring tables are transparent while the pattern is unchanged since their entries were stored; a pattern change does not clear them (see Left out).

**Canvas.** The canvas is a row-major RGBA byte buffer. A channel is stored as `round(v * 255)`, clamped, and writes outside the image are clipped. That is the drawer with the colour-field bug corrected (see Findings). As written, the concatenated build's drawer stores transparent black on every write, so every render of the later build comes out all zero; `Drawer.AsWrittenRenderIsBlank` proves this.

**Renderer.** The renderer normalises side and gap and derives the cube geometry. It sizes the canvas and places each cube. It then stamps the cubes in row order, right to left within a row. With the corrected drawer, both render modes are proved equal to a reference canvas. In that reference, the last stamp covering a pixel decides its colour.

**Older build.** The older single-file build at the repository root is a separate module, `Legacy`. It has the same stroke drawing, but done with a clipping drawer directly on the canvas. It also has its own palette table and its own layout formulas. Its `pixel2pixel` is proved to draw exactly the later build's stamped cube, and its renders to draw the later build's reference picture moved one row down. The older build's own drawer reads the fields its own colour class has, so this needs no correction.

Modules follow the source files:

| module | source |
|---|---|
| `Pix` | `src/pix.js` |
| `Color` | `src/colorRGB.js`, `src/colorHSL.js`, `src/color.js` |
| `Palettes` | `src/palette.js` |
| `PaletteManager` | `src/paletteManager.js` |
| `Geometry` | the cursor primitives shared by `src/pixelTemplate.js` and `pixify.js` |
| `Template` | `src/pixelTemplate.js` |
| `Stencil` | `_createTemplate` in `src/pixify.js` |
| `TemplateManager` | `src/templateManager.js` |
| `Drawer` | `src/pixelDrawer.js` |
| `Pixify` | sizes, layout and order in `src/pixify.js` |
| `Render` | `_template2pixel`, `renderHorizontal`, `renderVertical` in `src/pixify.js` |
| `Legacy` | `pixify.js` |

Colours are exact reals, not IEEE doubles. Cache keys are tuples of the four channels rather than JavaScript's string coercion of a colour.

## Model

| member | source | states |
|---|---|---|
| Pix.FaceOfCode | src/pix.js:5-11 | the seven face constants are exactly 0..6, and reading a constant back gives the face it names |
| Pix.FaceCodesDistinct | src/pix.js:5-11 | no two faces share a constant |
| Pix.PatternAt | src/pix.js:17-37 | the pattern table answers exactly for indices 0..3 |
| Pix.SunPositionsIndexPermutations | src/pix.js:13-37 | each sun constant indexes its own pattern; every pattern gives the three sides three different shades; the lit face gets the normal shade |
| Pix.EveryShadeUsedOnce | src/pix.js:17-37 | under every sun position each shade lands on exactly one of the three sides |
| Color.KeyIsInjective | src/colorRGB.js:62-64 | the colour key used by the tables tells colours apart and gives the colour back |
| Color.HueSector | src/colorRGB.js:39-50 | hue in sixths is in [0, 6), and lies in the red, green or blue sector of the largest channel |
| Color.GetHSL | src/colorRGB.js:27-55 | lightness is the mean of the extreme channels; grey has hue and saturation 0; otherwise the hue matches the sector formula and saturation solves its defining equation on both sides of l = 0.5 |
| Color.GetHSLInRange | src/colorRGB.js:27-55 | a valid RGB colour has hue, saturation and lightness in the unit range |
| Color.Darken | src/colorHSL.js:28-30 | hue and saturation kept, alpha 1, lightness scaled by 1 − amount/100 |
| Color.Lighten | src/colorHSL.js:39-41 | hue and saturation kept, alpha 1, lightness scaled by 1 + amount/100 |
| Color.DarkenLightenMonotone | src/colorHSL.js:28-41 | for a percentage in [0, 100], darkening never raises lightness and lightening never lowers it |
| Color.LightenDoesNotClamp | src/colorHSL.js:39-41 | lightening can push lightness above 1, since the source does not clamp it |
| Color.WrapHue | src/colorHSL.js:55-60 | the hue wrap lands in [0, 1] and differs from its argument by a whole turn at most |
| Color.Hue2Rgb | src/colorHSL.js:54-71 | the channel is always between p and q |
| Color.GetRGB | src/colorHSL.js:49-84 | alpha 1; grey when saturation is 0; otherwise each channel lies between the two bounds p and q |
| Color.HueRotation | src/colorHSL.js:78-80 | red, green and blue read the same curve at hues a third of a turn apart: turning the hue forward by a third moves red's value to green and green's to blue |
| Color.Primaries | src/colorHSL.js:49-84 | fully saturated mid-lightness colours at hues 0, 1/3 and 2/3 convert to pure red, green and blue |
| Color.GetRGBInRange | src/colorHSL.js:49-84 | a valid HSL colour converts to channels in [0, 1] |
| Color.ValidIsHSLDefined | src/colorRGB.js:38 | a colour with channels in [0, 1] never makes the saturation formula divide by zero |
| Color.LegacyHSL | pixify.js:3-8 | missing arguments become 0, and a missing or zero alpha becomes 1 |
| Color.LegacyTransformsAgree | pixify.js:10-16 | the older build's darken and lighten compute the same colours as the later build's |
| Palettes.MakePalette | src/palette.js:11-50 | the normal side is the colour itself; the five derived shades are opaque |
| Palettes.LightnessLadder | src/palette.js:25-49 | the derived lightnesses are 0.7, 0.4, 1.3, 1.8 and 0.1 times the base, ordered outline ≤ darkest ≤ dark ≤ base ≤ highlight ≤ corner highlight |
| Palettes.ShadesKeepHueAndSaturation | src/palette.js:25-49 | every derived shade keeps the base colour's hue and saturation |
| Palettes.GreyPalette | src/palette.js:11-50 | a grey colour gets grey shades whose level is the scaled lightness |
| Palettes.DarkShadesInRange | src/palette.js:31-49 | for a valid colour, the darkened shades are valid colours |
| Palettes.SunPositionPermutesShades | src/pix.js:17-37 | moving the sun permutes the three side colours and leaves outline and highlights alone |
| Palettes.Colorize | src/pixelTemplate.js:213-236 | each cell gets the colour its tag names under the pattern; transparent cells get transparent black |
| Palettes.ColorizeEdgesIgnorePattern | src/templateManager.js:42-52 | outline, highlight and transparent cells are coloured the same under any pattern |
| Palettes.ColorizedAlpha | src/pixelTemplate.js:213-236 | for a visible base colour, a coloured cell is transparent exactly when its tag is |
| PaletteManager.BuildPalette | src/paletteManager.js:124-129 | no palette exactly for alpha 0, else the palette whose normal side is the colour |
| PaletteManager.NewManager | src/paletteManager.js:9-12 | an empty, coherent table with the sun at top left |
| PaletteManager.GetPalette | src/paletteManager.js:123-132 | the answer is the freshly built palette, `null` exactly for alpha 0; the table stays coherent, gains the key and keeps every other entry and the pattern |
| PaletteManager.SameKeySamePalette | src/paletteManager.js:123-132 | a second request for the same key returns the stored palette and leaves the table unchanged |
| PaletteManager.IsColorValid | src/paletteManager.js:22-28 | valid exactly for a nonzero alpha, which is exactly when a palette exists; the table is updated as `getPalette` updates it |
| PaletteManager.SetSunPosition | src/paletteManager.js:141-145 | positions 0..3 install their pattern; any other value leaves it; the table is untouched |
| PaletteManager.GetFaceColor | src/paletteManager.js:49-111 | the face's palette colour under the current pattern, or nothing for alpha 0 |
| PaletteManager.AccessorsFollowSun | src/paletteManager.js:49-75 | after a sun change, the three side accessors answer the shades the new pattern names |
| Geometry.Steps | src/pixelTemplate.js:131-156 | a slanted line runs ceil(distance / 2) times, or never |
| Geometry.StepsIsLoopCount | src/pixelTemplate.js:133 | the loop test `x < start + distance` holds exactly while fewer than that many steps have run |
| Geometry.FitsMeansInside | src/pixelTemplate.js:120-122 | a stroke that fits writes only cells inside the grid |
| Geometry.TranslateCovers | pixify.js:271-331 | moving a stroke moves the cells it covers and its end point |
| Geometry.IndexInRange | src/pixelTemplate.js:121 | a cell inside the grid has a row-major index inside the array |
| Geometry.IndexInjective | src/pixelTemplate.js:121 | two cells of the same width never share an index |
| Template.NewTemplate | src/pixelTemplate.js:11-26 | the requested size, all cells transparent, cursor at the origin, sun at top left, empty table |
| Template.MoveTo | src/pixelTemplate.js:82-85 | the cursor is at (x, y); cells, pen, pattern and table are unchanged |
| Template.MoveRelativeTo | src/pixelTemplate.js:95-98 | the cursor moves by (dx, dy); nothing else changes |
| Template.SetValue | src/pixelTemplate.js:107-109 | the pen takes the value; nothing else changes |
| Template.SetPixel | src/pixelTemplate.js:120-122 | exactly the addressed cell takes the value |
| Template.SetPixelChangesOneCell | src/pixelTemplate.js:120-122 | by coordinates: the written cell has the value and every other cell is as before |
| Template.SetPairChangesTwoCells | src/pixelTemplate.js:134-135 | one slanted step changes exactly two side-by-side cells |
| Template.DrawSlantedLineDown | src/pixelTemplate.js:148-156 | exactly the stroke's cells take the pen value; the cursor ends where the stroke ends |
| Template.DrawSlantedLineUp | src/pixelTemplate.js:131-139 | same, rising one row per step |
| Template.DrawVerticalLine | src/pixelTemplate.js:165-171 | same, for a column of `distance` cells |
| Template.DrawHorizontalLine | src/pixelTemplate.js:180-186 | same, for a row of `distance` cells |
| Template.GetColorizedTemplate | src/pixelTemplate.js:207-241 | a stored colouring for the base colour is returned as is; otherwise the cells are coloured, stored and returned |
| Template.SetPaletteLookUpPattern | src/pixelTemplate.js:195-197 | the pattern is replaced; cells, cursor, pen and colouring table are unchanged |
| Template.MemoIsTransparent | src/pixelTemplate.js:207-241 | with a coherent table, the answer is always the fresh colouring under the current pattern |
| Template.PatternChangeKeepsStaleColoring | src/pixelTemplate.js:195-197 | changing the pattern does not clear the table, so a colour seen before keeps its old colouring |
| Stencil.Draw | src/pixelTemplate.js:131-186 | a primitive dispatched on the line kind paints exactly its stroke |
| Stencil.DrawLeftFace | src/pixify.js:136-140 | the template shows the earlier strokes followed by the left face's strokes |
| Stencil.DrawRightFace | src/pixify.js:142-146 | likewise for the right face |
| Stencil.DrawTopFace | src/pixify.js:148-154 | likewise for the top face |
| Stencil.DrawOutline | src/pixify.js:156-172 | likewise for the six outline strokes |
| Stencil.DrawHighlight | src/pixify.js:174-181 | likewise for the three highlight strokes |
| Stencil.DrawCorner | src/pixify.js:183-188 | likewise for the two corner marks |
| Stencil.CreateTemplate | src/pixify.js:130-189 | a (2s − 1)-by-2s template, sun at top left, empty table, each cell holding the tag of the last stroke that covers it |
| Stencil.PaintedIsLastCover | src/pixify.js:130-189 | a cell's tag is that of a covering stroke no later stroke covers, and transparent exactly when nothing covers it |
| Stencil.PaintedSplit | src/pixify.js:130-189 | where a later batch of strokes covers a cell the later batch decides it; elsewhere the earlier one does |
| Stencil.StencilFits | src/pixify.js:130-189 | every stroke of the cube stays inside the grid, so the unclipped template writes never go out of bounds |
| Stencil.StencilFaceOrder | src/pixify.js:136-188 | faces are drawn left, right, top, outline, highlight, corner highlight, and no stroke draws transparent |
| Stencil.StencilRankAt | src/pixify.js:136-188 | the stroke at each position of the stencil list has the face rank of the drawing step it comes from |
| Stencil.StencilTopRowBlank | src/pixify.js:130-189 | the top row of the grid is never drawn |
| Stencil.SmallestStencil | src/pixify.js:130-189 | the 3-by-4 cube of side 2: a blank row, a corner-highlight row, then two rows reading outline, corner highlight, outline |
| TemplateManager.NewTemplateManager | src/templateManager.js:3-12 | no template, empty table, normal/dark/darkest on top/left/right |
| TemplateManager.DefaultIsTopLeft | src/templateManager.js:6-10 | that default is the sun-at-top-left pattern |
| TemplateManager.SetTemplate | src/templateManager.js:14-20 | the template read back is the one set; table and pattern untouched |
| TemplateManager.SetPaletteLookUpPattern | src/templateManager.js:22-24 | the pattern is replaced; the template and the colouring table are unchanged |
| TemplateManager.ColorizeTemplate | src/templateManager.js:26-59 | a stored colouring is returned as is; otherwise it fails exactly when no template is set, else the fresh colouring is stored and returned |
| TemplateManager.MemoIsTransparent | src/templateManager.js:26-59 | with a coherent table and a template, the answer is the fresh colouring |
| TemplateManager.NewTemplateKeepsStaleColoring | src/templateManager.js:14-16 | setting a new template does not clear the table |
| TemplateManager.AgreesWithTemplate | src/templateManager.js:26-59 | given the same cells, pattern and table, it colours exactly as the template's own colouriser |
| Drawer.NewDrawer | src/pixelDrawer.js:1-6 | a buffer of 4·w·h zero bytes |
| Drawer.Flush | src/pixelDrawer.js:8-10 | the buffer is cleared to zero at the same size |
| Drawer.ChannelByte | src/pixelDrawer.js:15-18 | for a channel in [0, 1], the stored byte is `v * 255` rounded to nearest |
| Drawer.ChannelByteMonotone | src/pixelDrawer.js:15-18 | larger channels never store smaller bytes |
| Drawer.ChannelByteEnds | src/pixelDrawer.js:15-18 | 0 and below store 0; 1 and above store 255 |
| Drawer.SetPixel | src/pixelDrawer.js:12-20 | inside the image with nonzero alpha, the pixel takes the colour's bytes; otherwise nothing changes; no other pixel's bytes change |
| Drawer.SetPixelKeepsOthers | src/pixelDrawer.js:12-20 | by coordinates: every other pixel is unchanged |
| Drawer.LastWriteWins | src/pixelDrawer.js:12-20 | an opaque write hides any earlier write to the same pixel |
| Drawer.DistinctWritesCommute | src/pixelDrawer.js:12-20 | writes to different pixels commute |
| Drawer.SetPixelAsWritten | src/pixelDrawer.js:12-20 | the drawer as written keeps the image size and buffer length |
| Drawer.AsWrittenStoresBlank | src/pixelDrawer.js:12-20 | as written, every in-image write stores transparent black |
| Drawer.AsWrittenLosesOpaqueRed | src/pixelDrawer.js:12-20 | as written, opaque red stores (0, 0, 0, 0); the corrected drawer stores (255, 0, 0, 255) |
| Drawer.AsWrittenStaysBlank | src/pixelDrawer.js:12-20 | as written, no run of `setPixel` calls ever puts a non-zero byte on a blank canvas |
| Drawer.AsWrittenRenderIsBlank | src/pixify.js:53-67 | as written, a render's fresh drawer followed by any run of `setPixel` calls stays transparent black |
| Drawer.CorrectedReadsColorFields | src/pixelDrawer.js:12-20 | reading the colour's own fields gives the corrected drawer |
| Pixify.NormalizeSide | src/pixify.js:108-109 | the side is even; an odd side goes down by one; a missing side, or 1, becomes 32 |
| Pixify.NormalizeGap | src/pixify.js:121-122 | the gap is even; an odd gap goes down by one; a missing gap becomes 0 |
| Pixify.NormalizeIdempotent | src/pixify.js:108-122 | normalising twice changes nothing |
| Pixify.SetPixelSize | src/pixify.js:108-114 | the derived fields are consistent with the new side and the gap is kept |
| Pixify.SetPixelGap | src/pixify.js:121-124 | the distance follows the new gap; side and cube size are kept |
| Pixify.NewConfig | src/pixify.js:15-25 | the constructor's sizes are consistent and normalised |
| Pixify.SizeAndGapCommute | src/pixify.js:108-124 | setting side and gap in either order gives the same sizes |
| Pixify.HalvesAreExact | src/pixify.js:112 | s/2, g/2 and distance·0.5 are whole numbers |
| Pixify.OriginsMatchSource | src/pixify.js:56-66 | the integer cube origins equal the source's formulas with halves |
| Pixify.StampsFitHorizontal | src/pixify.js:51-66 | in horizontal mode every cube lies inside the canvas |
| Pixify.StampsFitVertical | src/pixify.js:81-96 | in vertical mode every cube lies inside the canvas |
| Pixify.OrderHorizontalPosition | src/pixify.js:64-68 | sprite pixel (x, y) is stamped at step y·xRes + (xRes − 1 − x) |
| Pixify.OrderHorizontalCovers | src/pixify.js:64-68 | the horizontal order visits exactly the sprite's pixels |
| Pixify.OrderVerticalPosition | src/pixify.js:94-98 | sprite pixel (x, y) is stamped at step (yRes − 1 − y)·xRes + (xRes − 1 − x) |
| Pixify.OrderVerticalCovers | src/pixify.js:94-98 | the vertical order visits exactly the sprite's pixels |
| Pixify.FrontNeighboursLater | src/pixify.js:64-98 | the neighbours drawn in front of a cube are stamped after it in both modes |
| Pixify.RowRightToLeft | src/pixify.js:65-67 | one sprite row is visited from its rightmost pixel leftwards, each pixel once |
| Render.SpriteColor | src/sprite.js:22-25 | the sprite pixel's colour inside the image, transparent black outside |
| Render.StampColor | src/pixify.js:205-211 | a stamp writes the block's colour where the block covers the pixel, unless that colour is fully transparent |
| Render.Stamp | src/pixify.js:205-212 | every canvas pixel is the block's colour where the block writes, else what it was |
| Render.Template2Pixel | src/pixify.js:198-213 | the canvas gets the cube coloured with the colour's palette under the pattern, or nothing for alpha 0; the tables stay coherent |
| Render.RenderHorizontal | src/pixify.js:47-71 | the canvas has the horizontal size, and every pixel equals the last-stamp-wins reference for the stamps in horizontal order |
| Render.RenderVertical | src/pixify.js:77-101 | the same for the vertical size and order |
| Render.ExpectedAppend | src/pixify.js:198-213 | one more stamp changes the reference canvas only where that stamp writes a visible colour |
| Render.StampRow | src/pixify.js:65-67 | stamping a sprite row right to left extends the drawn picture by exactly that row's stamps in order |
| Render.CanvasIsPositive | src/pixify.js:51-52 | both canvases have a positive width and height |
| Legacy.LegacyConfig | pixify.js:186-192 | the older constructor's sizes are consistent |
| Legacy.LegacyConfigAgrees | pixify.js:186-192 | they equal the later build's sizes for the same options |
| Legacy.LegacyLayoutAgainstLater | pixify.js:200-235 | same canvas width; the horizontal canvas is one row taller; every cube sits one row lower than in the later build |
| Legacy.LegacyCursorsMatchSource | pixify.js:209-235 | the integer cursor positions equal the source's formulas with halves |
| Legacy.BuildLegacyPalette | pixify.js:251-263 | no palette exactly for alpha 0; the top colour is the colour itself |
| Legacy.LegacyPaletteIsTopLeft | pixify.js:256-263 | each face colour is the later build's palette read through the sun-at-top-left pattern |
| Legacy.GetColorPalette | pixify.js:251-269 | the answer is always the freshly built palette; the table stays coherent, gains the key and keeps its other entries |
| Legacy.LegacySetPixel | pixify.js:125-133 | inside the image the pixel takes the colour's bytes whatever the alpha; outside nothing changes |
| Legacy.LegacySetPixelAgrees | pixify.js:125-133 | with nonzero alpha it equals the later drawer's `setPixel`; with alpha 0 it writes a transparent pixel |
| Legacy.LegacySetPixelKeepsOthers | pixify.js:125-133 | every other pixel is unchanged |
| Legacy.DrawSlantedLineDown | pixify.js:145-153 | exactly the stroke's in-image pixels take the pen colour; the cursor ends where the stroke ends |
| Legacy.DrawSlantedLineUp | pixify.js:135-143 | likewise, rising |
| Legacy.DrawVerticalLine | pixify.js:155-161 | likewise for a column |
| Legacy.DrawHorizontalLine | pixify.js:163-169 | likewise for a row |
| Legacy.PaintedPlaced | pixify.js:271-331 | a moved stroke list paints each pixel as the original paints the pixel moved back |
| Legacy.LeftFace | pixify.js:280-284 | the canvas shows the earlier strokes plus the stencil's left face moved to the cube |
| Legacy.RightFace | pixify.js:286-290 | likewise for the right face |
| Legacy.TopFace | pixify.js:292-298 | likewise for the top face |
| Legacy.OutlineFace | pixify.js:300-316 | likewise for the outline |
| Legacy.HighlightFace | pixify.js:318-325 | likewise for the highlight |
| Legacy.CornerFace | pixify.js:327-331 | likewise for the corner highlight |
| Legacy.TintIsCube | pixify.js:271-331 | the older cube's colour at each pixel is the later build's cube, coloured for sun at top left, stamped at the cube corner |
| Legacy.Pixel2Pixel | pixify.js:271-332 | the canvas gets exactly the later build's stamp of the sun-at-top-left cube with corner (x, y − s − s/2), clipped; nothing for alpha 0 |
| Legacy.DrawIfPalette | pixify.js:275-332 | with no palette the canvas is untouched; with the colour's palette the drawn cube is the later build's stamp at the cube corner |
| Legacy.HorizontalRows | pixify.js:209-215 | the outer loop of `renderHorizontal` from row j on draws the lowered stamps of all rows in order |
| Legacy.VerticalRows | pixify.js:230-236 | the outer loop of `renderVertical` from row j down to row 0 draws the lowered stamps of those rows in order |
| Legacy.ExpectedLowered | pixify.js:204-235 | lowering every stamp by one row lowers the reference canvas by one row |
| Legacy.RenderHorizontal | pixify.js:198-217 | the older horizontal canvas equals the reference for the later build's horizontal stamps lowered one row, under sun at top left |
| Legacy.RenderVertical | pixify.js:219-238 | the same for vertical mode |
| Legacy.LegacyIsLaterLowered | pixify.js:198-238 | below its top row, the older picture is the later build's picture moved down one row |

## Left out

- DOM and canvas plumbing are not modelled: `getContext`, `createImageData`, `putImageData` (`PixelDrawer.render`), sprite loading and `getImageData`. The renders return the byte buffer, and the sprite is given as colours.
- The build script, the server and the demo page are not part of this model.
- `PixelTemplate.flush` is not modelled. It is never called, and it sets the pen to `{}`, which is not a face.
- The getters `getTemplate`, `getWidth`, `getHeight` and `getPattern` are not modelled separately. They are field reads.
- Colours are exact reals. IEEE-754 rounding and NaN are not modelled, so `Math.round(NaN)` only appears in the finding, as the byte 0.
- Color.GetHSL, Palettes.MakePalette and PaletteManager.GetPalette require `HSLDefined` (no division by zero in the saturation formula). For other colours the source would produce NaN or Infinity. Every valid colour meets it (`Color.ValidIsHSLDefined`).
- Table keys are channel tuples. JavaScript's number-to-string coercion would also merge +0 and −0, and that is not modelled.
- Render.Stamp, Render.Template2Pixel, Render.RenderHorizontal, Render.RenderVertical and Legacy.LegacyIsLaterLowered are stated over the corrected drawer (`Drawer.SetPixel`). With the drawer as written, every write stores transparent black and every render of the later build is all zero (`Drawer.AsWrittenRenderIsBlank`). The full renders are not restated over the drawer as written.
- Pixify.NormalizeSide, Pixify.NormalizeGap: arguments are whole numbers or missing. Fractional, string and NaN options are not modelled.
- Stencil.CreateTemplate requires an even side of at least 2. For side 0 or a negative side, the source writes outside its array, which JavaScript tolerates.
- Render.RenderHorizontal, Render.RenderVertical, Legacy.RenderHorizontal and Legacy.RenderVertical require such a side, a non-negative gap and a non-empty sprite. A negative gap can give a negative canvas size, which the canvas rejects.
- Template.SetPixel requires the cell to be inside the grid, since the source does not clip. Every stroke of the stencil is proved to fit.
- PaletteManager.GetFaceColor returns nothing for a colour without a palette. The source throws a `TypeError` there.
- TemplateManager.ColorizeTemplate returns nothing when no template is set. The source throws there.
- `TemplateManager` is not used by the renderer in the source, so it is modelled on its own. It is proved to agree with the template's colouriser.
- The template's colouring table is not cleared when the pattern changes. It is keyed by base colour only. The model follows the code (`Template.PatternChangeKeepsStaleColoring`). Renders are not affected, because each render builds a fresh template and sets the pattern once before stamping.

## Findings

| source | as written | input that shows it | evidently intended | confidence | as-written member | corrected member |
|---|---|---|---|---|---|---|
| src/pixelDrawer.js:12-20 | `setPixel` reads `color._r`, `_g`, `_b` and `_a`. The concatenated build defines `ColorRGB` in `src/colorRGB.js` with fields `r`, `g`, `b` and `a`, and that definition replaces the hoisted one in `src/color.js`. So every read is `undefined`: the alpha test always passes and each byte stores `Math.round(NaN)`, which is 0. So every render of the later build comes out transparent black (`Drawer.AsWrittenRenderIsBlank`). | opaque red `ColorRGB(1, 0, 0, 1)` at (0, 0) of a 1-by-1 canvas stores (0, 0, 0, 0) | read `r`, `g`, `b` and `a`: store (255, 0, 0, 255) and skip alpha-0 colours | high, not executed | Drawer.AsWrittenLosesOpaqueRed | Drawer.CorrectedReadsColorFields |
